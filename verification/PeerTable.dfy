/**
 The peer table of a node and what one received advertisement does to it (conf_utils.c).

 A node keeps at most MAX_PEERS entries in an array and looks them up by scanning. An
 advertisement is first turned into a chained hash table, then every node of every bucket
 is compared with the receiver's table. Whatever the bucket order, the outcome is one
 relaxation step on the map from uuids to weights.
 */
module PeerTables {
  import opened Wrappers
  import opened HashTables

  const MAX_PEERS: nat := 50

  datatype Peer = Peer(uuid: string, name: string, host: string,
                       frontendPort: int, backendPort: int, weight: int)

  type Table = seq<Peer>
  type Weights = map<string, int>

  // ---------------------------------------------------------------- tables as maps

  /** The first entry for a uuid, or the table's length. */
  function IndexOf(t: Table, u: string): (i: nat)
    ensures i <= |t|
    ensures i < |t| ==> t[i].uuid == u
    ensures forall j :: 0 <= j < i ==> t[j].uuid != u
  {
    if t == [] then 0 else if t[0].uuid == u then 0 else 1 + IndexOf(t[1..], u)
  }

  ghost predicate Distinct(t: Table) {
    forall i, j :: 0 <= i < j < |t| ==> t[i].uuid != t[j].uuid
  }

  /** The table as a map; where a uuid is listed twice, its first entry counts. */
  ghost function WeightsOf(t: Table): Weights {
    if t == [] then map[]
    else
      var w, p := WeightsOf(t[..|t| - 1]), t[|t| - 1];
      if p.uuid in w then w else w[p.uuid := p.weight]
  }

  ghost function Uuids(t: Table): set<string> {
    WeightsOf(t).Keys
  }

  /** The map is what the scan finds. */
  lemma {:induction false} WeightsByIndex(t: Table, u: string)
    ensures u in WeightsOf(t) <==> IndexOf(t, u) < |t|
    ensures u in WeightsOf(t) ==> WeightsOf(t)[u] == t[IndexOf(t, u)].weight
    decreases |t|
  {
    if t != [] {
      var s, p := t[..|t| - 1], t[|t| - 1];
      WeightsByIndex(s, u);
      IndexOfPrefix(s, p, u);
      assert t == s + [p];
    }
  }

  lemma IndexOfPrefix(s: Table, p: Peer, u: string)
    ensures IndexOf(s + [p], u) == if IndexOf(s, u) == |s| && p.uuid != u then |s| + 1 else IndexOf(s, u)
  {
    var t := s + [p];
    assert forall j :: 0 <= j < |s| ==> t[j] == s[j];
    assert t[|s|] == p;
  }

  lemma WeightAt(t: Table, i: nat)
    requires Distinct(t) && i < |t|
    ensures IndexOf(t, t[i].uuid) == i
    ensures t[i].uuid in WeightsOf(t) && WeightsOf(t)[t[i].uuid] == t[i].weight
  {
    WeightsByIndex(t, t[i].uuid);
  }

  lemma {:induction false} DistinctSize(t: Table)
    requires Distinct(t)
    ensures |Uuids(t)| == |t|
    decreases |t|
  {
    if t != [] {
      var s, p := t[..|t| - 1], t[|t| - 1];
      DistinctSize(s);
      WeightsByIndex(s, p.uuid);
      assert Uuids(t) == Uuids(s) + {p.uuid};
    }
  }

  // ---------------------------------------------------------------- the pure step

  /** The table after one advertisement has been taken in, as a map: `given` is the cost of
      reaching the sender, and every advertised entry other than the receiver and the
      sender is relaxed through it. A sender not listed yet is added at `given`. */
  ghost function Relax(w: Weights, given: int, adv: Weights, me: string, sender: string): Weights {
    map v | v in w.Keys + (adv.Keys - {me}) ::
      if v !in w then given + adv[v]
      else if v in adv && v != me && v != sender && given + adv[v] < w[v] then given + adv[v]
      else w[v]
  }

  /** The same step when the receiver's array may run full: some of the relaxations are
      done, and nothing else happens. */
  ghost predicate Received(w: Weights, given: int, adv: Weights, me: string, sender: string, w': Weights) {
    && w.Keys <= w'.Keys <= w.Keys + (adv.Keys - {me})
    && forall v :: v in w' ==>
      if v !in w then w'[v] == given + adv[v]
      else w'[v] == w[v] || (v in adv && v != me && v != sender && w'[v] == given + adv[v] < w[v])
  }

  /** The cost of reaching the sender: the receiver's own entry for it, and when that is
      missing or zero the sender's entry for the receiver, used backwards. */
  ghost function Given(w: Weights, adv: Weights, me: string, sender: string): int {
    if sender in w && w[sender] != 0 then w[sender]
    else if me in adv then adv[me]
    else 0
  }

  /** A sender listed at weight zero costs what it would cost if it were not listed; at any
      other weight its own entry decides. */
  lemma SenderCost(w: Weights, adv: Weights, me: string, sender: string, listed: int)
    ensures Given(w[sender := 0], adv, me, sender) == Given(w - {sender}, adv, me, sender)
            == if me in adv then adv[me] else 0
    ensures listed != 0 ==> Given(w[sender := listed], adv, me, sender) == listed
  {
  }

  lemma RelaxIsReceived(w: Weights, given: int, adv: Weights, me: string, sender: string)
    ensures Received(w, given, adv, me, sender, Relax(w, given, adv, me, sender))
  {
  }

  /** Advertisements over disjoint sets of uuids can be taken in one after the other. */
  lemma RelaxCompose(w: Weights, given: int, a: Weights, b: Weights, me: string, sender: string)
    requires a.Keys !! b.Keys
    ensures Relax(Relax(w, given, a, me, sender), given, b, me, sender) == Relax(w, given, a + b, me, sender)
  {
  }

  lemma ReceivedCompose(w: Weights, given: int, a: Weights, w1: Weights, b: Weights, w2: Weights,
                        me: string, sender: string)
    requires a.Keys !! b.Keys
    requires Received(w, given, a, me, sender, w1) && Received(w1, given, b, me, sender, w2)
    ensures Received(w, given, a + b, me, sender, w2)
  {
    forall v | v in w2
      ensures if v !in w then w2[v] == given + (a + b)[v]
              else w2[v] == w[v] || (v in a + b && v != me && v != sender && w2[v] == given + (a + b)[v] < w[v])
    {
      if v !in w {
        if v in w1 {
          assert w1[v] == given + a[v];
        }
      } else {
        assert v in w1;
      }
    }
  }

  // ---------------------------------------------------------------- one entry, one chain, all buckets

  /** What one advertised entry does to a table with room for it. */
  function Absorb(t: Table, me: string, sender: string, given: int, p: Peer): Table {
    var i := IndexOf(t, p.uuid);
    if p.uuid == me then t
    else if i == |t| then t + [p.(weight := given + p.weight)]
    else if p.uuid != sender && given + p.weight < t[i].weight then t[i := t[i].(weight := given + p.weight)]
    else t
  }

  /** The entry is new and there is no slot left for it. */
  predicate NoRoom(t: Table, me: string, p: Peer) {
    p.uuid != me && IndexOf(t, p.uuid) == |t| && |t| >= MAX_PEERS
  }

  /** A chain is walked until its end or until an entry finds no room. */
  function AbsorbChain(t: Table, me: string, sender: string, given: int, chain: Chain<Peer>): Table
    decreases |chain|
  {
    if chain == [] || NoRoom(t, me, chain[0].value) then t
    else AbsorbChain(Absorb(t, me, sender, given, chain[0].value), me, sender, given, chain[1..])
  }

  /** Running out of room ends one chain, not the walk over the buckets. */
  function AbsorbBuckets(t: Table, me: string, sender: string, given: int, bs: seq<Chain<Peer>>): Table
    decreases |bs|
  {
    if bs == [] then t
    else AbsorbBuckets(AbsorbChain(t, me, sender, given, bs[0]), me, sender, given, bs[1..])
  }

  /** Each node is keyed by the uuid of the entry it holds. */
  ghost predicate SelfKeyed(chain: Chain<Peer>) {
    forall i :: 0 <= i < |chain| ==> chain[i].key == chain[i].value.uuid
  }

  ghost function ChainWeights(chain: Chain<Peer>): (w: Weights)
    ensures w.Keys == set e | e in chain :: e.key
  {
    if chain == [] then map[]
    else map[chain[0].key := chain[0].value.weight] + ChainWeights(chain[1..])
  }

  ghost function BucketWeights(bs: seq<Chain<Peer>>): Weights {
    if bs == [] then map[] else ChainWeights(bs[0]) + BucketWeights(bs[1..])
  }

  /** Entries keep their slots and everything but their weight, which never rises; the
      receiver's own uuid is never added. */
  ghost predicate Extends(t: Table, t': Table, me: string) {
    && Distinct(t')
    && |t| <= |t'|
    && (forall i :: 0 <= i < |t| ==> t'[i].(weight := t[i].weight) == t[i] && t'[i].weight <= t[i].weight)
    && (forall i :: |t| <= i < |t'| ==> t'[i].uuid != me)
    && (|t| <= MAX_PEERS ==> |t'| <= MAX_PEERS)
  }

  /** The outcome of taking in `adv`, seen from the receiver's array. */
  ghost predicate RelaxedBy(t: Table, t': Table, given: int, adv: Weights, me: string, sender: string) {
    && Distinct(t)
    && Extends(t, t', me)
    && Received(WeightsOf(t), given, adv, me, sender, WeightsOf(t'))
    && (Fits(WeightsOf(t), adv, me) ==> WeightsOf(t') == Relax(WeightsOf(t), given, adv, me, sender))
  }

  /** An exact relaxation is in particular a partial one. */
  lemma RelaxedExactly(t: Table, t': Table, given: int, adv: Weights, me: string, sender: string)
    requires Distinct(t) && Extends(t, t', me)
    requires WeightsOf(t') == Relax(WeightsOf(t), given, adv, me, sender)
    ensures RelaxedBy(t, t', given, adv, me, sender)
  {
    RelaxIsReceived(WeightsOf(t), given, adv, me, sender);
  }

  lemma RelaxOne(w: Weights, given: int, u: string, c: int, me: string, sender: string)
    ensures Relax(w, given, map[u := c], me, sender) ==
            if u != me && (u !in w || (u != sender && given + c < w[u])) then w[u := given + c] else w
  {
  }

  lemma AbsorbExtends(t: Table, me: string, sender: string, given: int, p: Peer)
    requires Distinct(t) && !NoRoom(t, me, p)
    ensures Extends(t, Absorb(t, me, sender, given, p), me)
  {
  }

  lemma AbsorbWeights(t: Table, me: string, sender: string, given: int, p: Peer)
    requires Distinct(t)
    ensures WeightsOf(Absorb(t, me, sender, given, p)) ==
            Relax(WeightsOf(t), given, map[p.uuid := p.weight], me, sender)
  {
    hide Relax, WeightsOf;
    var i := IndexOf(t, p.uuid);
    WeightsByIndex(t, p.uuid);
    RelaxOne(WeightsOf(t), given, p.uuid, p.weight, me, sender);
    if p.uuid != me {
      if i == |t| {
        AppendWeights(t, p.(weight := given + p.weight));
      } else if p.uuid != sender && given + p.weight < t[i].weight {
        UpdateWeights(t, i, given + p.weight);
      }
    }
  }

  lemma AbsorbOne(t: Table, me: string, sender: string, given: int, p: Peer)
    requires Distinct(t) && !NoRoom(t, me, p)
    ensures RelaxedBy(t, Absorb(t, me, sender, given, p), given, map[p.uuid := p.weight], me, sender)
  {
    AbsorbExtends(t, me, sender, given, p);
    AbsorbWeights(t, me, sender, given, p);
    RelaxedExactly(t, Absorb(t, me, sender, given, p), given, map[p.uuid := p.weight], me, sender);
  }

  lemma AppendWeights(t: Table, p: Peer)
    requires IndexOf(t, p.uuid) == |t|
    ensures Distinct(t) ==> Distinct(t + [p])
    ensures WeightsOf(t + [p]) == WeightsOf(t)[p.uuid := p.weight]
  {
    hide IndexOf;
    WeightsByIndex(t, p.uuid);
    assert (t + [p])[..|t|] == t;
  }

  lemma UpdateDistinct(t: Table, i: nat, weight: int)
    requires Distinct(t) && i < |t|
    ensures Distinct(t[i := t[i].(weight := weight)])
  {
  }

  lemma LastWeight(t: Table)
    requires Distinct(t) && t != []
    ensures var s, p := t[..|t| - 1], t[|t| - 1];
            Distinct(s) && WeightsOf(t) == WeightsOf(s)[p.uuid := p.weight]
  {
    var s, p := t[..|t| - 1], t[|t| - 1];
    WeightsByIndex(s, p.uuid);
  }

  lemma {:induction false} UpdateWeights(t: Table, i: nat, weight: int)
    requires Distinct(t) && i < |t|
    ensures var t' := t[i := t[i].(weight := weight)];
            Distinct(t') && WeightsOf(t') == WeightsOf(t)[t[i].uuid := weight]
    decreases |t|
  {
    var t' := t[i := t[i].(weight := weight)];
    var s, n := t[..|t| - 1], |t| - 1;
    assert i < n ==> t[i].uuid != t[n].uuid;
    UpdateDistinct(t, i, weight);
    hide IndexOf, WeightsOf, Distinct;
    LastWeight(t);
    LastWeight(t');
    if i < n {
      UpdateWeights(s, i, weight);
      assert t'[..n] == s[i := s[i].(weight := weight)];
    } else {
      assert t'[..n] == s;
    }
  }

  lemma ExtendsTrans(t: Table, t1: Table, t2: Table, me: string)
    requires Extends(t, t1, me) && Extends(t1, t2, me)
    ensures Extends(t, t2, me)
  {
    forall i | 0 <= i < |t|
      ensures t2[i].(weight := t[i].weight) == t[i]
    {
      assert t1[i].(weight := t[i].weight) == t[i] && t2[i].(weight := t1[i].weight) == t1[i];
    }
  }

  /** Every entry that is new to the table could be given a slot. */
  ghost predicate Fits(w: Weights, adv: Weights, me: string) {
    |w.Keys + (adv.Keys - {me})| <= MAX_PEERS
  }

  /** The relaxation is exact precisely where every advertised uuid fits the array. */
  lemma ExactIffFits(t: Table, t': Table, given: int, adv: Weights, me: string, sender: string)
    requires RelaxedBy(t, t', given, adv, me, sender) && |t| <= MAX_PEERS
    ensures WeightsOf(t') == Relax(WeightsOf(t), given, adv, me, sender) <==> Fits(WeightsOf(t), adv, me)
  {
    hide WeightsOf, Received, Relax, Distinct;
    DistinctSize(t');
    RelaxKeys(WeightsOf(t), given, adv, me, sender);
  }

  lemma RelaxKeys(w: Weights, given: int, adv: Weights, me: string, sender: string)
    ensures Relax(w, given, adv, me, sender).Keys == w.Keys + (adv.Keys - {me})
  {
  }

  lemma RelaxedByNothing(t: Table, given: int, me: string, sender: string)
    requires Distinct(t)
    ensures RelaxedBy(t, t, given, map[], me, sender)
  {
    assert Relax(WeightsOf(t), given, map[], me, sender) == WeightsOf(t);
  }

  lemma RelaxedByThen(t: Table, t1: Table, t2: Table, given: int, a: Weights, b: Weights, me: string, sender: string)
    requires a.Keys !! b.Keys
    requires RelaxedBy(t, t1, given, a, me, sender) && RelaxedBy(t1, t2, given, b, me, sender)
    ensures RelaxedBy(t, t2, given, a + b, me, sender)
  {
    ExtendsTrans(t, t1, t2, me);
    StepThenRest(WeightsOf(t), given, a, WeightsOf(t1), b, WeightsOf(t2), me, sender);
  }

  lemma {:induction false} ChainRelaxes(t: Table, me: string, sender: string, given: int, chain: Chain<Peer>)
    requires Distinct(t) && DistinctKeys(chain) && SelfKeyed(chain)
    ensures RelaxedBy(t, AbsorbChain(t, me, sender, given, chain), given, ChainWeights(chain), me, sender)
    decreases |chain|
  {
    if chain == [] {
      RelaxedByNothing(t, given, me, sender);
    } else if NoRoom(t, me, chain[0].value) {
      NoRoomNoFit(t, ChainWeights(chain), me, chain[0].value);
    } else {
      var p := chain[0].value;
      var t1 := Absorb(t, me, sender, given, p);
      AbsorbOne(t, me, sender, given, p);
      ChainRelaxes(t1, me, sender, given, chain[1..]);
      assert forall e :: e in chain[1..] ==> e.key != chain[0].key;
      RelaxedByThen(t, t1, AbsorbChain(t1, me, sender, given, chain[1..]), given,
                    map[p.uuid := p.weight], ChainWeights(chain[1..]), me, sender);
    }
  }

  /** An exact step followed by a partial (or, where it fits, exact) one. */
  lemma StepThenRest(w: Weights, given: int, a: Weights, w1: Weights, b: Weights, w2: Weights,
                     me: string, sender: string)
    requires a.Keys !! b.Keys
    requires Received(w, given, a, me, sender, w1) && Received(w1, given, b, me, sender, w2)
    requires Fits(w, a, me) ==> w1 == Relax(w, given, a, me, sender)
    requires Fits(w1, b, me) ==> w2 == Relax(w1, given, b, me, sender)
    ensures Received(w, given, a + b, me, sender, w2)
    ensures Fits(w, a + b, me) ==> w2 == Relax(w, given, a + b, me, sender)
  {
    ReceivedCompose(w, given, a, w1, b, w2, me, sender);
    if Fits(w, a + b, me) {
      var all := w.Keys + ((a + b).Keys - {me});
      SubsetSize(w.Keys + (a.Keys - {me}), all);
      SubsetSize(w1.Keys + (b.Keys - {me}), all);
      RelaxCompose(w, given, a, b, me, sender);
    }
  }

  lemma SubsetSize(a: set<string>, b: set<string>)
    requires a <= b
    ensures |a| <= |b|
  {
    if a != {} {
      var x :| x in a;
      SubsetSize(a - {x}, b - {x});
    }
  }

  lemma NoRoomNoFit(t: Table, adv: Weights, me: string, p: Peer)
    requires Distinct(t) && NoRoom(t, me, p) && p.uuid in adv
    ensures !Fits(WeightsOf(t), adv, me)
  {
    DistinctSize(t);
    WeightsByIndex(t, p.uuid);
    SubsetSize(Uuids(t) + {p.uuid}, WeightsOf(t).Keys + (adv.Keys - {me}));
  }

  /** No uuid hangs off two buckets. */
  ghost predicate Scattered(bs: seq<Chain<Peer>>) {
    && (forall b :: 0 <= b < |bs| ==> DistinctKeys(bs[b]) && SelfKeyed(bs[b]))
    && (forall b, c, i, j :: 0 <= b < c < |bs| && 0 <= i < |bs[b]| && 0 <= j < |bs[c]| ==> bs[b][i].key != bs[c][j].key)
  }

  lemma BucketKeys(bs: seq<Chain<Peer>>)
    ensures BucketWeights(bs).Keys == Keys(bs)
  {
    if bs != [] {
      BucketKeys(bs[1..]);
      forall k
        ensures k in Keys(bs) <==> k in BucketWeights(bs)
      {
        if k in Keys(bs) {
          var b, i :| 0 <= b < |bs| && 0 <= i < |bs[b]| && bs[b][i].key == k;
          if b == 0 {
            assert bs[0][i] in bs[0];
          } else {
            assert bs[1..][b - 1][i].key in Keys(bs[1..]);
          }
        }
        if k in BucketWeights(bs) {
          if k in ChainWeights(bs[0]) {
            var e :| e in bs[0] && e.key == k;
            var i :| 0 <= i < |bs[0]| && bs[0][i] == e;
            assert bs[0][i].key in Keys(bs);
          } else {
            var b, i :| 0 <= b < |bs[1..]| && 0 <= i < |bs[1..][b]| && bs[1..][b][i].key == k;
            assert bs[b + 1][i].key in Keys(bs);
          }
        }
      }
    }
  }

  lemma ScatteredTail(bs: seq<Chain<Peer>>)
    requires Scattered(bs) && bs != []
    ensures Scattered(bs[1..])
  {
    assert forall b :: 0 <= b < |bs[1..]| ==> bs[1..][b] == bs[b + 1];
  }

  /** The whole table is taken in: whatever the bucket order, the outcome is one relaxation. */
  lemma {:induction false} BucketsRelax(t: Table, me: string, sender: string, given: int, bs: seq<Chain<Peer>>)
    requires Distinct(t) && Scattered(bs)
    ensures RelaxedBy(t, AbsorbBuckets(t, me, sender, given, bs), given, BucketWeights(bs), me, sender)
    decreases |bs|
  {
    if bs == [] {
      RelaxedByNothing(t, given, me, sender);
    } else {
      var t1 := AbsorbChain(t, me, sender, given, bs[0]);
      ChainRelaxes(t, me, sender, given, bs[0]);
      ScatteredTail(bs);
      BucketsRelax(t1, me, sender, given, bs[1..]);
      HeadApart(bs);
      RelaxedByThen(t, t1, AbsorbBuckets(t1, me, sender, given, bs[1..]), given,
                    ChainWeights(bs[0]), BucketWeights(bs[1..]), me, sender);
    }
  }

  lemma HeadApart(bs: seq<Chain<Peer>>)
    requires Scattered(bs) && bs != []
    ensures ChainWeights(bs[0]).Keys !! BucketWeights(bs[1..]).Keys
  {
    BucketKeys(bs[1..]);
    forall k | k in ChainWeights(bs[0])
      ensures k !in Keys(bs[1..])
    {
      var e :| e in bs[0] && e.key == k;
      var i :| 0 <= i < |bs[0]| && bs[0][i] == e;
      forall b, j | 0 <= b < |bs[1..]| && 0 <= j < |bs[1..][b]|
        ensures bs[1..][b][j].key != k
      {
        assert bs[b + 1][j].key != bs[0][i].key;
      }
    }
  }

  // ---------------------------------------------------------------- building the advertisement

  /** What a sender's configuration advertises: itself at the root weight, and each listed
      uuid with the record of its first occurrence and its least weight. An entry under the
      sender's own uuid is ignored. */
  ghost function Advert(self: Peer, t: Table): map<string, Peer> {
    if t == [] then map[self.uuid := self]
    else
      var m, p := Advert(self, t[..|t| - 1]), t[|t| - 1];
      if p.uuid !in m then m[p.uuid := p]
      else if m[p.uuid].uuid != self.uuid && p.weight < m[p.uuid].weight then
        m[p.uuid := m[p.uuid].(weight := p.weight)]
      else m
  }

  ghost predicate IsLeast(w: int, t: Table, u: string) {
    && (exists i :: 0 <= i < |t| && t[i].uuid == u && t[i].weight == w)
    && (forall i :: 0 <= i < |t| && t[i].uuid == u ==> w <= t[i].weight)
  }

  ghost predicate AdvertFor(self: Peer, t: Table, m: map<string, Peer>) {
    && m.Keys == Uuids(t) + {self.uuid}
    && m[self.uuid] == self
    && (forall u :: u in m ==> m[u].uuid == u)
    && (forall u :: u in m && u != self.uuid ==> IsLeast(m[u].weight, t, u) && FirstRecord(m[u], t, u))
  }

  ghost predicate FirstRecord(p: Peer, t: Table, u: string) {
    IndexOf(t, u) < |t| && p == t[IndexOf(t, u)].(weight := p.weight)
  }

  lemma {:induction false} AdvertMeaning(self: Peer, t: Table)
    ensures AdvertFor(self, t, Advert(self, t))
    decreases |t|
  {
    hide IsLeast, FirstRecord, IndexOf;
    if t != [] {
      var s, p := t[..|t| - 1], t[|t| - 1];
      AdvertMeaning(self, s);
      assert t == s + [p];
      var n, m := Advert(self, s), Advert(self, t);
      forall u | u in m && u != self.uuid
        ensures IsLeast(m[u].weight, t, u) && FirstRecord(m[u], t, u)
      {
        if u in n {
          SeenBefore(n[u], s, p, u, m[u]);
        } else {
          FirstSeen(s, p);
        }
      }
    }
  }

  lemma SeenBefore(q: Peer, s: Table, p: Peer, u: string, q': Peer)
    requires IsLeast(q.weight, s, u) && FirstRecord(q, s, u)
    requires q' == if p.uuid == u && p.weight < q.weight then q.(weight := p.weight) else q
    ensures IsLeast(q'.weight, s + [p], u) && FirstRecord(q', s + [p], u)
  {
    var t := s + [p];
    assert t[|s|] == p;
    IndexOfPrefix(s, p, u);
    var j :| 0 <= j < |s| && s[j].uuid == u && s[j].weight == q.weight;
    assert t[j] == s[j];
  }

  lemma FirstSeen(s: Table, p: Peer)
    requires p.uuid !in Uuids(s)
    ensures IsLeast(p.weight, s + [p], p.uuid) && FirstRecord(p, s + [p], p.uuid)
  {
    var t := s + [p];
    assert t[|s|] == p;
    WeightsByIndex(s, p.uuid);
    IndexOfPrefix(s, p, p.uuid);
    assert forall i :: 0 <= i < |s| ==> t[i] == s[i];
  }

  ghost function WeightMap(m: map<string, Peer>): Weights {
    map u | u in m :: m[u].weight
  }

  /** A duplicate-free table is advertised as it stands, with its owner at weight zero. */
  lemma AdvertOfDistinct(self: Peer, t: Table)
    requires Distinct(t) && self.weight == 0
    ensures WeightMap(Advert(self, t)) == WeightsOf(t)[self.uuid := 0]
  {
    AdvertMeaning(self, t);
    var m := Advert(self, t);
    forall u | u in m && u != self.uuid
      ensures m[u].weight == WeightsOf(t)[u]
    {
      var i :| 0 <= i < |t| && t[i].uuid == u && t[i].weight == m[u].weight;
      WeightAt(t, i);
    }
  }

  lemma PlacedIsScattered(bs: seq<Chain<Peer>>)
    requires WellPlaced(bs) && forall b :: 0 <= b < |bs| ==> SelfKeyed(bs[b])
    ensures Scattered(bs)
  {
    forall b, c, i, j | 0 <= b < c < |bs| && 0 <= i < |bs[b]| && 0 <= j < |bs[c]|
      ensures bs[b][i].key != bs[c][j].key
    {
      assert BucketOf(bs[b][i].key, |bs|) == b && BucketOf(bs[c][j].key, |bs|) == c;
    }
  }

  /** On a well placed table the chains, read one after the other, are the map. */
  lemma ModelWeights(bs: seq<Chain<Peer>>)
    requires WellPlaced(bs) && forall b :: 0 <= b < |bs| ==> SelfKeyed(bs[b])
    ensures BucketWeights(bs) == WeightMap(Model(bs))
  {
    forall k
      ensures At(BucketWeights(bs), k) == At(WeightMap(Model(bs)), k)
    {
      ModelWeightAt(bs, k);
    }
    SameMap(BucketWeights(bs), WeightMap(Model(bs)));
  }

  lemma ModelWeightAt(bs: seq<Chain<Peer>>, k: string)
    requires WellPlaced(bs) && forall b :: 0 <= b < |bs| ==> SelfKeyed(bs[b])
    ensures At(BucketWeights(bs), k) == At(WeightMap(Model(bs)), k)
  {
    PlacedIsScattered(bs);
    BucketKeys(bs);
    InModel(bs, k);
    var b := BucketOf(k, |bs|);
    var e := Exact(bs[b], k);
    if e < |bs[b]| {
      WeightInBuckets(bs, b, e);
      assert At(Model(bs), k) == Some(bs[b][e].value);
    }
  }

  lemma {:induction false} WeightInBuckets(bs: seq<Chain<Peer>>, b: nat, i: nat)
    requires Scattered(bs) && b < |bs| && i < |bs[b]|
    ensures bs[b][i].key in BucketWeights(bs) && BucketWeights(bs)[bs[b][i].key] == bs[b][i].value.weight
    decreases |bs|
  {
    HeadApart(bs);
    if b == 0 {
      WeightInChain(bs[0], i);
    } else {
      ScatteredTail(bs);
      WeightInBuckets(bs[1..], b - 1, i);
    }
  }

  lemma WeightInChain(chain: Chain<Peer>, i: nat)
    requires DistinctKeys(chain) && i < |chain|
    ensures chain[i].key in ChainWeights(chain) && ChainWeights(chain)[chain[i].key] == chain[i].value.weight
  {
    assert chain[i] in chain;
    if i > 0 {
      WeightInChain(chain[1..], i - 1);
    }
  }

  // ---------------------------------------------------------------- whose records new entries carry

  /** An entry without its weight. */
  function Record(p: Peer): Peer {
    p.(weight := 0)
  }

  ghost predicate InChain(p: Peer, chain: Chain<Peer>) {
    exists k :: 0 <= k < |chain| && Record(p) == Record(chain[k].value)
  }

  ghost predicate InBuckets(p: Peer, bs: seq<Chain<Peer>>) {
    exists b :: 0 <= b < |bs| && InChain(p, bs[b])
  }

  /** Listed entries keep their records, a new entry has the record of an advertised one. */
  lemma {:induction false} ChainRecords(t: Table, me: string, sender: string, given: int, chain: Chain<Peer>, i: nat)
    requires i < |AbsorbChain(t, me, sender, given, chain)|
    ensures |t| <= |AbsorbChain(t, me, sender, given, chain)|
    ensures var p := AbsorbChain(t, me, sender, given, chain)[i];
            if i < |t| then Record(p) == Record(t[i]) else InChain(p, chain)
    decreases |chain|
  {
    if chain != [] && !NoRoom(t, me, chain[0].value) {
      var t1 := Absorb(t, me, sender, given, chain[0].value);
      ChainRecords(t1, me, sender, given, chain[1..], i);
      var p := AbsorbChain(t, me, sender, given, chain)[i];
      if i >= |t1| {
        var k :| 0 <= k < |chain[1..]| && Record(p) == Record(chain[1..][k].value);
        assert Record(p) == Record(chain[k + 1].value);
      } else if i >= |t| {
        assert Record(p) == Record(chain[0].value);
      }
    }
  }

  lemma {:induction false} BucketRecords(t: Table, me: string, sender: string, given: int, bs: seq<Chain<Peer>>, i: nat)
    requires i < |AbsorbBuckets(t, me, sender, given, bs)|
    ensures |t| <= |AbsorbBuckets(t, me, sender, given, bs)|
    ensures var p := AbsorbBuckets(t, me, sender, given, bs)[i];
            if i < |t| then Record(p) == Record(t[i]) else InBuckets(p, bs)
    decreases |bs|
  {
    hide AbsorbChain, InChain;
    if bs != [] {
      var t1 := AbsorbChain(t, me, sender, given, bs[0]);
      BucketRecords(t1, me, sender, given, bs[1..], i);
      if |t1| > 0 {
        ChainRecords(t, me, sender, given, bs[0], if i < |t1| then i else 0);
      } else {
        AbsorbChainGrows(t, me, sender, given, bs[0]);
      }
      var p := AbsorbBuckets(t, me, sender, given, bs)[i];
      if i >= |t1| {
        var b :| 0 <= b < |bs[1..]| && InChain(p, bs[1..][b]);
        assert InChain(p, bs[b + 1]);
      } else if i >= |t| {
        SameRecord(t1[i], p, bs[0]);
        assert InChain(p, bs[0]);
      }
    }
  }

  lemma {:induction false} AbsorbChainGrows(t: Table, me: string, sender: string, given: int, chain: Chain<Peer>)
    ensures |t| <= |AbsorbChain(t, me, sender, given, chain)|
    decreases |chain|
  {
    if chain != [] && !NoRoom(t, me, chain[0].value) {
      AbsorbChainGrows(Absorb(t, me, sender, given, chain[0].value), me, sender, given, chain[1..]);
    }
  }

  lemma SameRecord(p: Peer, q: Peer, chain: Chain<Peer>)
    requires Record(p) == Record(q) && InChain(p, chain)
    ensures InChain(q, chain)
  {
    var k :| 0 <= k < |chain| && Record(p) == Record(chain[k].value);
    assert Record(q) == Record(chain[k].value);
  }

  /** Every new entry carries the record advertised under its uuid. */
  ghost predicate RecordsFrom(was: Table, now: Table, adv: map<string, Peer>) {
    forall i :: |was| <= i < |now| ==> now[i].uuid in adv && Record(now[i]) == Record(adv[now[i].uuid])
  }

  lemma NewRecords(was: Table, bs: seq<Chain<Peer>>, me: string, sender: string, given: int)
    requires WellPlaced(bs) && forall b :: 0 <= b < |bs| ==> SelfKeyed(bs[b])
    ensures RecordsFrom(was, AbsorbBuckets(was, me, sender, given, bs), Model(bs))
  {
    hide Model, AbsorbBuckets;
    var now := AbsorbBuckets(was, me, sender, given, bs);
    forall i | |was| <= i < |now|
      ensures now[i].uuid in Model(bs) && Record(now[i]) == Record(Model(bs)[now[i].uuid])
    {
      BucketRecords(was, me, sender, given, bs, i);
      var b :| 0 <= b < |bs| && InChain(now[i], bs[b]);
      var k :| 0 <= k < |bs[b]| && Record(now[i]) == Record(bs[b][k].value);
      ModelEntry(bs, b, k);
      SameUuid(now[i], bs[b][k].value);
    }
  }

  lemma SameUuid(p: Peer, q: Peer)
    requires Record(p) == Record(q)
    ensures p.uuid == q.uuid
  {
    assert Record(p).uuid == Record(q).uuid;
  }
}
