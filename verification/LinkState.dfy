/**
 The node configuration and the handling of a `/link-state` advertisement, as the C code
 does it: a fixed array of peers with a count, and nested loops over buckets, chains and
 peers that write weights in place.
 */
module LinkState {
  import opened Wrappers
  import opened HashTables
  import opened PeerTables

  datatype AddResult = Added | TableFull | AlreadyListed

  class NodeConfig {
    var uuid: string
    var name: string
    var host: string
    var frontendPort: int
    var backendPort: int
    var contentDir: string
    var peerCount: int
    const peers: array<Peer>

    ghost predicate Valid()
      reads this
    {
      peers.Length == MAX_PEERS && 0 <= peerCount <= MAX_PEERS
    }

    ghost function Table(): (t: Table)
      requires Valid()
      reads this, peers
      ensures |t| == peerCount
    {
      peers[..peerCount]
    }

    /** The bytes of the configuration that a `peer_info` overlays, at the given weight. */
    function AsPeer(weight: int): Peer
      reads this
    {
      Peer(uuid, name, host, frontendPort, backendPort, weight)
    }

    constructor (uuid: string, name: string, host: string, frontendPort: int, backendPort: int, contentDir: string)
      ensures Valid() && Table() == [] && this.uuid == uuid && fresh(peers)
      ensures this.contentDir == contentDir
      ensures AsPeer(0) == Peer(uuid, name, host, frontendPort, backendPort, 0)
    {
      this.uuid, this.name, this.host := uuid, name, host;
      this.frontendPort, this.backendPort := frontendPort, backendPort;
      this.contentDir := contentDir;
      peerCount := 0;
      peers := new Peer[MAX_PEERS](_ => Peer("", "", "", 0, 0, 0));
    }

    /** A configuration just allocated: nothing is known of its fields. */
    constructor Allocated()
      ensures peers.Length == MAX_PEERS && fresh(peers)
    {
      peers := new Peer[MAX_PEERS](_ => Peer("", "", "", 0, 0, 0));
    }

    /** The table scan every lookup in the configuration uses. */
    method FindPeer(u: string) returns (i: nat)
      requires Valid()
      ensures i == IndexOf(Table(), u)
    {
      i := 0;
      while i < peerCount
        invariant i <= peerCount
        invariant forall j :: 0 <= j < i ==> peers[j].uuid != u
      {
        if peers[i].uuid == u {
          return;
        }
        i := i + 1;
      }
    }

    /** `add_peer_from_string`, after its string has been scanned. */
    method AddPeer(u: string, host: string, frontend: int, backend: int, metric: int) returns (r: AddResult)
      requires Valid()
      modifies this`peerCount, peers
      ensures Valid()
      ensures r == if |old(Table())| >= MAX_PEERS then TableFull
                   else if u in Uuids(old(Table())) then AlreadyListed
                   else Added
      ensures Table() == if r == Added then old(Table()) + [Peer(u, "", host, frontend, backend, metric)]
                         else old(Table())
      ensures Distinct(old(Table())) ==> Distinct(Table())
      ensures r == Added ==> WeightsOf(Table()) == WeightsOf(old(Table()))[u := metric]
    {
      if peerCount >= MAX_PEERS {
        return TableFull;
      }
      ghost var was := Table();
      WeightsByIndex(was, u);
      var i := FindPeer(u);
      if i < peerCount {
        return AlreadyListed;
      }
      var p := Peer(u, "", host, frontend, backend, metric);
      AppendWeights(was, p);
      peers[peerCount] := p;
      peerCount := peerCount + 1;
      assert Table() == was + [p];
      return Added;
    }
  }

  /** Every table entry is keyed by its own uuid. */
  ghost predicate Keyed(bs: seq<Chain<Peer>>) {
    forall b :: 0 <= b < |bs| ==> SelfKeyed(bs[b])
  }

  lemma PutKeepsKeyed(bs: seq<Chain<Peer>>, key: string, value: Peer)
    requires |bs| > 0 && Keyed(bs)
    requires var c := Home(bs, key); var i := Find(c, key); value.uuid == if i < |c| then c[i].key else key
    ensures var b := BucketOf(key, |bs|); Keyed(bs[b := ChainPut(bs[b], key, value)])
  {
  }

  /** What the built table must hold after the first entries of the sender's array. */
  ghost predicate Built(bs: seq<Chain<Peer>>, self: Peer, t: Table, all: set<string>) {
    && WellPlaced(bs) && Keyed(bs)
    && (PrefixFree(all) ==> Keys(bs) <= all && Model(bs) == Advert(self, t))
  }

  /** One entry of the sender's array goes into the table: a new uuid is stored, a lower
      weight replaces a higher one, the sender itself stays as it is. */
  ghost function AddEntry(bs: seq<Chain<Peer>>, me: string, p: Peer): seq<Chain<Peer>>
    requires |bs| > 0
  {
    var b := BucketOf(p.uuid, |bs|);
    var e := ChainGet(bs[b], p.uuid);
    if e == None then bs[b := ChainPut(bs[b], p.uuid, p)]
    else if e.value.uuid != me && p.weight < e.value.weight then
      bs[b := ChainPut(bs[b], p.uuid, e.value.(weight := p.weight))]
    else bs
  }

  lemma BuildStep(bs: seq<Chain<Peer>>, self: Peer, t: Table, p: Peer, all: set<string>)
    requires Built(bs, self, t, all) && p.uuid in all
    ensures Built(AddEntry(bs, self.uuid, p), self, t + [p], all)
  {
    var bs' := AddEntry(bs, self.uuid, p);
    var e := ChainGet(Home(bs, p.uuid), p.uuid);
    var q := if e == None then p else e.value.(weight := p.weight);
    assert (t + [p])[..|t|] == t;
    if bs' != bs {
      PutKeepsKeyed(bs, p.uuid, q);
      PutKeepsPlaces(bs, p.uuid, q);
    }
    if PrefixFree(all) {
      PrefixFreeSubset(all, Keys(bs) + {p.uuid});
      PrefixFreeNotShadowed(bs, p.uuid);
      GetIsLookup(bs, p.uuid);
      if bs' != bs {
        PutIsUpdate(bs, p.uuid, q);
      }
    }
  }

  /** The loop body of `node_config_to_hashmap`. */
  method AddToTable(ht: HashTable<Peer>, me: string, peer: Peer)
    requires ht.Valid() && peer.uuid != ""
    modifies ht.buckets
    ensures ht.Valid()
    ensures ht.buckets[..] == AddEntry(old(ht.buckets[..]), me, peer)
  {
    var existing := ht.Get(peer.uuid);
    if existing == None {
      ht.Put(peer.uuid, peer);
    } else if existing.value.uuid != me && peer.weight < existing.value.weight {
      // the write goes through the pointer the lookup returned
      ht.Put(peer.uuid, existing.value.(weight := peer.weight));
    }
  }

  /** `node_config_to_hashmap`. */
  method NodeConfigToHashmap(config: NodeConfig, rootWeight: int) returns (ht: HashTable<Peer>)
    requires config.Valid() && config.uuid != ""
    requires forall p :: p in config.Table() ==> p.uuid != ""
    ensures ht.Valid() && fresh(ht) && fresh(ht.buckets)
    ensures Keyed(ht.buckets[..])
    ensures PrefixFree(Uuids(config.Table()) + {config.uuid}) ==>
              Model(ht.buckets[..]) == Advert(config.AsPeer(rootWeight), config.Table())
  {
    hide Built, AddEntry, WellPlaced, Keyed, PrefixFree, Model, Advert, BucketOf, ChainPut, WeightsOf;
    ht := new HashTable(config.peerCount + 1);
    var initial := config.AsPeer(rootWeight);
    ghost var t := config.Table();
    ghost var all := Uuids(t) + {config.uuid};
    FirstPut(ht.buckets[..], initial, all);
    ht.Put(initial.uuid, initial);
    for i := 0 to config.peerCount
      invariant ht.Valid() && fresh(ht.buckets)
      invariant Built(ht.buckets[..], initial, t[..i], all)
    {
      var peer := config.peers[i];
      WeightsByIndex(t, t[i].uuid);
      BuildStep(ht.buckets[..], initial, t[..i], peer, all);
      AddToTable(ht, config.uuid, peer);
      assert t[..i + 1] == t[..i] + [peer];
    }
    assert t[..|t|] == t;
    BuiltDone(ht.buckets[..], initial, t, all);
  }

  lemma BuiltDone(bs: seq<Chain<Peer>>, self: Peer, t: Table, all: set<string>)
    requires Built(bs, self, t, all)
    ensures Keyed(bs) && (PrefixFree(all) ==> Model(bs) == Advert(self, t))
  {
  }

  lemma EmptyModel(bs: seq<Chain<Peer>>, self: Peer)
    requires WellPlaced(bs) && forall b :: 0 <= b < |bs| ==> bs[b] == []
    ensures Keys(bs) == {} && Model(bs) == map[] && Keyed(bs)
  {
  }

  lemma FirstPut(bs: seq<Chain<Peer>>, self: Peer, all: set<string>)
    requires WellPlaced(bs) && forall b :: 0 <= b < |bs| ==> bs[b] == []
    requires self.uuid in all
    ensures var b := BucketOf(self.uuid, |bs|);
            Built(bs[b := ChainPut(bs[b], self.uuid, self)], self, [], all)
  {
    EmptyModel(bs, self);
    PutKeepsKeyed(bs, self.uuid, self);
    PutKeepsPlaces(bs, self.uuid, self);
    PutIsUpdate(bs, self.uuid, self);
  }

  /** The cost of reaching the sender, from the receiver's array and the sender's table. */
  function GivenWeight(t: Table, bs: seq<Chain<Peer>>, me: string, sender: string): int
    requires |bs| > 0
  {
    var i := IndexOf(t, sender);
    var listed := if i < |t| then t[i].weight else 0;
    var back := ChainGet(bs[BucketOf(me, |bs|)], me);
    if listed == 0 && back.Some? then back.value.weight else listed
  }

  /** `update_peer_weights_last_seen`, for tables of any shape. */
  method UpdatePeerWeights(config: NodeConfig, ht: HashTable<Peer>, sender: string)
    requires config.Valid() && config.uuid != "" && ht.Valid()
    modifies config`peerCount, config.peers
    ensures config.Valid()
    ensures config.Table() ==
            var given := GivenWeight(old(config.Table()), old(ht.buckets[..]), config.uuid, sender);
            AbsorbBuckets(old(config.Table()), config.uuid, sender, given, old(ht.buckets[..]))
  {
    hide WellPlaced, GivenWeight, AbsorbChain, AbsorbBuckets;
    ghost var bs, was := ht.buckets[..], config.Table();
    var given := SenderWeight(config, ht, sender);
    AllAbsorbed(was, bs, config.uuid, sender, given);
    var n := ht.buckets.Length;
    for i := 0 to n
      invariant config.Valid() && ht.buckets[..] == bs
      invariant AbsorbBuckets(config.Table(), config.uuid, sender, given, bs[i..]) ==
                AbsorbBuckets(was, config.uuid, sender, given, bs)
    {
      var chain := ht.buckets[i];
      assert chain == bs[i];
      BucketAbsorbed(config.Table(), bs, i, config.uuid, sender, given);
      AbsorbOneChain(config, chain, sender, given);
      assert ht.buckets[..] == bs;
    }
    AllAbsorbed(config.Table(), bs, config.uuid, sender, given);
  }

  lemma AllAbsorbed(t: Table, bs: seq<Chain<Peer>>, me: string, sender: string, given: int)
    ensures bs[0..] == bs && AbsorbBuckets(t, me, sender, given, bs[|bs|..]) == t
  {
  }

  lemma BucketAbsorbed(t: Table, bs: seq<Chain<Peer>>, i: nat, me: string, sender: string, given: int)
    requires i < |bs|
    ensures AbsorbBuckets(t, me, sender, given, bs[i..]) ==
            AbsorbBuckets(AbsorbChain(t, me, sender, given, bs[i]), me, sender, given, bs[i + 1..])
  {
    assert bs[i..][1..] == bs[i + 1..];
  }

  /** The part of it that finds the cost of reaching the sender. */
  method SenderWeight(config: NodeConfig, ht: HashTable<Peer>, sender: string) returns (given: int)
    requires config.Valid() && config.uuid != "" && ht.Valid()
    ensures given == GivenWeight(config.Table(), ht.buckets[..], config.uuid, sender)
    ensures var w := WeightsOf(config.Table());
            if sender in w && w[sender] != 0 then given == w[sender]
            else
              var back := ChainGet(ht.buckets[BucketOf(config.uuid, ht.buckets.Length)], config.uuid);
              given == if back.Some? then back.value.weight else 0
  {
    WeightsByIndex(config.Table(), sender);
    given := 0;
    var at := config.FindPeer(sender);
    if at < config.peerCount {
      given := config.peers[at].weight;
    }
    if given == 0 {
      var back := ht.Get(config.uuid);
      if back.Some? {
        given := back.value.weight;
      }
    }
  }

  /** The inner loop of `update_peer_weights_last_seen`, over one chain. */
  method AbsorbOneChain(config: NodeConfig, chain: Chain<Peer>, sender: string, given: int)
    requires config.Valid()
    modifies config`peerCount, config.peers
    ensures config.Valid()
    ensures config.Table() == AbsorbChain(old(config.Table()), config.uuid, sender, given, chain)
  {
    ghost var was := config.Table();
    var k := 0;
    while k < |chain|
      invariant k <= |chain| && config.Valid()
      invariant AbsorbChain(config.Table(), config.uuid, sender, given, chain[k..]) ==
                AbsorbChain(was, config.uuid, sender, given, chain)
    {
      assert chain[k..][0] == chain[k] && chain[k..][1..] == chain[k + 1..];
      var full := AbsorbOnePeer(config, chain[k].value, sender, given);
      if full {
        break;
      }
      k := k + 1;
    }
  }

  /** The body of that loop: `full` is its `break`. */
  method AbsorbOnePeer(config: NodeConfig, peer: Peer, sender: string, given: int) returns (full: bool)
    requires config.Valid()
    modifies config`peerCount, config.peers
    ensures config.Valid()
    ensures full == NoRoom(old(config.Table()), config.uuid, peer)
    ensures config.Table() == if full then old(config.Table())
                              else Absorb(old(config.Table()), config.uuid, sender, given, peer)
  {
    if peer.uuid == config.uuid {
      return false;
    }
    ghost var t := config.Table();
    var index := config.FindPeer(peer.uuid);
    if index == config.peerCount {
      if config.peerCount >= MAX_PEERS {
        return true;
      }
      config.peers[config.peerCount] := peer.(weight := given + peer.weight);
      config.peerCount := config.peerCount + 1;
      assert config.Table() == t + [peer.(weight := given + peer.weight)];
    } else if config.peers[index].uuid != sender {
      var newWeight := given + peer.weight;
      if newWeight < config.peers[index].weight {
        config.peers[index] := config.peers[index].(weight := newWeight);
        assert config.Table() == t[index := t[index].(weight := newWeight)];
      }
    }
    return false;
  }

  /** The cost of reaching the sender depends only on the two maps. */
  lemma GivenIsGiven(t: Table, bs: seq<Chain<Peer>>, adv: map<string, Peer>, me: string, sender: string)
    requires WellPlaced(bs) && Model(bs) == adv
    requires PrefixFree(Keys(bs) + {me})
    ensures GivenWeight(t, bs, me, sender) == Given(WeightsOf(t), WeightMap(adv), me, sender)
  {
    WeightsByIndex(t, sender);
    PrefixFreeNotShadowed(bs, me);
    GetIsLookup(bs, me);
  }

  /** The `/link-state` handler's effect on the routing table. On prefix-free uuids and a
      duplicate-free table it is one relaxation step: exact where every advertised uuid
      fits the array, partial otherwise. */
  method ReceiveAdvertisement(config: NodeConfig, peerConfig: NodeConfig)
    requires config.Valid() && peerConfig.Valid() && config.peers != peerConfig.peers && config != peerConfig
    requires config.uuid != "" && peerConfig.uuid != ""
    requires forall p :: p in peerConfig.Table() ==> p.uuid != ""
    modifies config`peerCount, config.peers
    ensures config.Valid()
    ensures PrefixFree(Uuids(peerConfig.Table()) + {peerConfig.uuid, config.uuid}) && Distinct(old(config.Table())) ==>
              var adv := WeightMap(Advert(peerConfig.AsPeer(0), peerConfig.Table()));
              var given := Given(WeightsOf(old(config.Table())), adv, config.uuid, peerConfig.uuid);
              && RelaxedBy(old(config.Table()), config.Table(), given, adv, config.uuid, peerConfig.uuid)
              && RecordsFrom(old(config.Table()), config.Table(), Advert(peerConfig.AsPeer(0), peerConfig.Table()))
              && (WeightsOf(config.Table()) ==
                  Relax(WeightsOf(old(config.Table())), given, adv, config.uuid, peerConfig.uuid)
                  <==> Fits(WeightsOf(old(config.Table())), adv, config.uuid))
  {
    var ht := NodeConfigToHashmap(peerConfig, 0);
    ghost var bs, was := ht.buckets[..], config.Table();
    ghost var t, self := peerConfig.Table(), peerConfig.AsPeer(0);
    UpdatePeerWeights(config, ht, peerConfig.uuid);
    if PrefixFree(Uuids(t) + {peerConfig.uuid, config.uuid}) && Distinct(was) {
      TakenIn(was, bs, self, t, config.uuid);
    }
  }

  lemma TakenIn(was: Table, bs: seq<Chain<Peer>>, self: Peer, t: Table, me: string)
    requires WellPlaced(bs) && Keyed(bs) && Distinct(was)
    requires PrefixFree(Uuids(t) + {self.uuid, me})
    requires PrefixFree(Uuids(t) + {self.uuid}) ==> Model(bs) == Advert(self, t)
    ensures var adv := WeightMap(Advert(self, t));
            var given := Given(WeightsOf(was), adv, me, self.uuid);
            var now := AbsorbBuckets(was, me, self.uuid, GivenWeight(was, bs, me, self.uuid), bs);
            && RelaxedBy(was, now, given, adv, me, self.uuid) && RecordsFrom(was, now, Advert(self, t))
            && (|was| <= MAX_PEERS ==>
                  (WeightsOf(now) == Relax(WeightsOf(was), given, adv, me, self.uuid) <==>
                   Fits(WeightsOf(was), adv, me)))
  {
    hide RecordsFrom, AbsorbBuckets, RelaxedBy, Model, GivenWeight, Advert, Given, WeightsOf, Distinct;
    NewRecords(was, bs, me, self.uuid, GivenWeight(was, bs, me, self.uuid));
    PrefixFreeSubset(Uuids(t) + {self.uuid, me}, Uuids(t) + {self.uuid});
    AdvertMeaning(self, t);
    forall k | k in Keys(bs)
      ensures k in Uuids(t) + {self.uuid}
    {
      InModel(bs, k);
    }
    PrefixFreeSubset(Uuids(t) + {self.uuid, me}, Keys(bs) + {me});
    GivenIsGiven(was, bs, Advert(self, t), me, self.uuid);
    PlacedIsScattered(bs);
    ModelWeights(bs);
    BucketsRelax(was, me, self.uuid, GivenWeight(was, bs, me, self.uuid), bs);
    var adv := WeightMap(Advert(self, t));
    var now := AbsorbBuckets(was, me, self.uuid, GivenWeight(was, bs, me, self.uuid), bs);
    if |was| <= MAX_PEERS {
      ExactIffFits(was, now, Given(WeightsOf(was), adv, me, self.uuid), adv, me, self.uuid);
    }
  }
}
