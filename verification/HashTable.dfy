/**
 The chained hash table of hmap_utils.c.

 A table is an array of chains; a chain is the list of nodes hanging off one bucket.
 Keys are C strings and every caller passes `strlen(key)` as the size, so a node matches a
 key when the key is a prefix of the node's key. The table therefore refines a map exactly
 where no stored key that extends the wanted one stands in its way.
 */
module HashTables {
  import opened Wrappers

  /** One node of a chain. */
  datatype Entry<V> = Entry(key: string, value: V)

  type Chain<V> = seq<Entry<V>>

  const UINT_RANGE: int := 0x1_0000_0000

  // ---------------------------------------------------------------- the hash

  /** A byte read through a `char *` on a platform where `char` is signed. */
  function SignedChar(c: char): int {
    var b := c as int % 256;
    if b < 128 then b else b - 256
  }

  /** The polynomial in 31 that the hash computes, before any wrap-around. */
  function Polynomial(key: string): int {
    if key == "" then 0 else Polynomial(key[..|key| - 1]) * 31 + SignedChar(key[|key| - 1])
  }

  function BucketOf(key: string, size: nat): (b: nat)
    requires size > 0
    ensures b < size
  {
    Polynomial(key) % UINT_RANGE % size
  }

  lemma WrapStep(h: int, c: int)
    ensures (h % UINT_RANGE * 31 + c) % UINT_RANGE == (h * 31 + c) % UINT_RANGE
  {
    var q := h / UINT_RANGE;
    assert h == q * UINT_RANGE + h % UINT_RANGE;
    var r := h % UINT_RANGE * 31 + c;
    assert h * 31 + c == r + (31 * q) * UINT_RANGE;
    ModShift(r, 31 * q);
  }

  lemma ModShift(r: int, k: int)
    ensures (r + k * UINT_RANGE) % UINT_RANGE == r % UINT_RANGE
  {
    var a := r + k * UINT_RANGE;
    var d := a / UINT_RANGE - r / UINT_RANGE - k;
    assert a % UINT_RANGE - r % UINT_RANGE == -d * UINT_RANGE;
    assert d == 0;
  }

  /** `hash_func`: the unsigned accumulator wraps at every step, the result is the
      wrapped polynomial reduced to the table size. */
  method HashFunc(key: string, size: nat) returns (h: nat)
    requires size > 0 && key != ""
    ensures h == BucketOf(key, size)
  {
    h := 0;
    for i := 0 to |key|
      invariant h == Polynomial(key[..i]) % UINT_RANGE
    {
      assert key[..i + 1][..i] == key[..i];
      WrapStep(Polynomial(key[..i]), SignedChar(key[i]));
      h := (h * 31 + SignedChar(key[i])) % UINT_RANGE;
    }
    assert key[..|key|] == key;
    h := h % size;
  }

  // ---------------------------------------------------------------- one chain

  /** `memcmp(node->key, key, strlen(key)) == 0`. */
  predicate Matches(nodeKey: string, key: string) {
    key <= nodeKey
  }

  /** The first node that matches the key, or the chain's length. */
  function Find<V>(chain: Chain<V>, key: string): (i: nat)
    ensures i <= |chain|
    ensures i < |chain| ==> Matches(chain[i].key, key)
    ensures forall j :: 0 <= j < i ==> !Matches(chain[j].key, key)
  {
    if chain == [] then 0
    else if Matches(chain[0].key, key) then 0
    else 1 + Find(chain[1..], key)
  }

  function ChainPut<V>(chain: Chain<V>, key: string, value: V): Chain<V> {
    var i := Find(chain, key);
    if i < |chain| then chain[i := chain[i].(value := value)] else [Entry(key, value)] + chain
  }

  function ChainGet<V>(chain: Chain<V>, key: string): Option<V> {
    var i := Find(chain, key);
    if i < |chain| then Some(chain[i].value) else None
  }

  function ChainDelete<V>(chain: Chain<V>, key: string): Chain<V> {
    var i := Find(chain, key);
    if i < |chain| then chain[..i] + chain[i + 1..] else chain
  }

  ghost predicate DistinctKeys<V>(chain: Chain<V>) {
    forall i, j :: 0 <= i < j < |chain| ==> chain[i].key != chain[j].key
  }

  /** The node with exactly this key, or the chain's length. */
  ghost function Exact<V>(chain: Chain<V>, key: string): (i: nat)
    ensures i <= |chain|
    ensures i < |chain| ==> chain[i].key == key
    ensures forall j :: 0 <= j < i ==> chain[j].key != key
  {
    if chain == [] then 0 else if chain[0].key == key then 0 else 1 + Exact(chain[1..], key)
  }

  /** Some node extends the key and stands before the key's own node. */
  ghost predicate Shadowed<V>(chain: Chain<V>, key: string) {
    exists i :: 0 <= i < Exact(chain, key) && key <= chain[i].key
  }

  /** The search by prefix finds the node a search by equality would find exactly when the
      key is not shadowed. */
  lemma FindIsExactIff<V>(chain: Chain<V>, key: string)
    ensures Find(chain, key) == Exact(chain, key) <==> !Shadowed(chain, key)
  {
    var e := Exact(chain, key);
    if e < |chain| {
      assert Matches(chain[e].key, key);
    }
  }

  // ---------------------------------------------------------------- the table as a map

  /** Every node sits in the bucket its key hashes to, and no key appears twice. */
  ghost predicate WellPlaced<V>(bs: seq<Chain<V>>) {
    && |bs| > 0
    && (forall b, i :: 0 <= b < |bs| && 0 <= i < |bs[b]| ==> BucketOf(bs[b][i].key, |bs|) == b)
    && (forall b :: 0 <= b < |bs| ==> DistinctKeys(bs[b]))
  }

  ghost function Keys<V>(bs: seq<Chain<V>>): set<string> {
    set b, i | 0 <= b < |bs| && 0 <= i < |bs[b]| :: bs[b][i].key
  }

  /** The chain a key is looked for in. */
  ghost function Home<V>(bs: seq<Chain<V>>, key: string): Chain<V>
    requires |bs| > 0
  {
    bs[BucketOf(key, |bs|)]
  }

  /** What a search by equality finds in a chain. */
  ghost function Lookup<V>(chain: Chain<V>, key: string): Option<V> {
    var e := Exact(chain, key);
    if e < |chain| then Some(chain[e].value) else None
  }

  /** What the table stores, node by node, as a map. */
  ghost function Model<V>(bs: seq<Chain<V>>): map<string, V>
    requires |bs| > 0
  {
    map k | k in Keys(bs) && Lookup(Home(bs, k), k).Some? :: Lookup(Home(bs, k), k).value
  }

  ghost function At<V>(m: map<string, V>, key: string): Option<V> {
    if key in m then Some(m[key]) else None
  }

  lemma InModel<V>(bs: seq<Chain<V>>, key: string)
    requires WellPlaced(bs)
    ensures At(Model(bs), key) == Lookup(Home(bs, key), key)
    ensures key in Model(bs) <==> key in Keys(bs)
  {
    var b := BucketOf(key, |bs|);
    var e := Exact(bs[b], key);
    if e < |bs[b]| {
      assert bs[b][e].key in Keys(bs);
    }
    if key in Keys(bs) {
      var c, i :| 0 <= c < |bs| && 0 <= i < |bs[c]| && bs[c][i].key == key;
    }
  }

  lemma ModelKeys<V>(bs: seq<Chain<V>>)
    requires WellPlaced(bs)
    ensures Model(bs).Keys == Keys(bs)
  {
    forall k
      ensures k in Model(bs) <==> k in Keys(bs)
    {
      InModel(bs, k);
    }
  }

  lemma ModelEntry<V>(bs: seq<Chain<V>>, b: nat, i: nat)
    requires WellPlaced(bs) && b < |bs| && i < |bs[b]|
    ensures bs[b][i].key in Model(bs) && Model(bs)[bs[b][i].key] == bs[b][i].value
  {
    var key := bs[b][i].key;
    assert BucketOf(key, |bs|) == b;
    assert key in Keys(bs);
    InModel(bs, key);
    LookupIs(bs[b], key, i);
  }

  /** Maps that agree at every key are equal. */
  lemma SameMap<V>(m: map<string, V>, n: map<string, V>)
    requires forall k :: At(m, k) == At(n, k)
    ensures m == n
  {
    forall k
      ensures k in m <==> k in n
      ensures k in m ==> m[k] == n[k]
    {
      assert At(m, k) == At(n, k);
    }
  }

  ghost predicate PrefixFree(ks: set<string>) {
    forall j, k :: j in ks && k in ks && j <= k ==> j == k
  }

  lemma PrefixFreeNotShadowed<V>(bs: seq<Chain<V>>, key: string)
    requires WellPlaced(bs) && PrefixFree(Keys(bs) + {key})
    ensures !Shadowed(Home(bs, key), key)
  {
    var b := BucketOf(key, |bs|);
    var e := Exact(bs[b], key);
    forall i | 0 <= i < e
      ensures !(key <= bs[b][i].key)
    {
      assert bs[b][i].key in Keys(bs);
    }
  }

  /** The key whose node a search stops at, or the key itself where it finds none. */
  ghost function FirstMatch<V>(chain: Chain<V>, key: string): (k: string)
    ensures k == key <==> !Shadowed(chain, key)
  {
    FindIsExactIff(chain, key);
    var i := Find(chain, key);
    if i < |chain| then chain[i].key else key
  }

  /** Some key of the set extends `p` and falls into its bucket. */
  ghost predicate Extended(ks: set<string>, p: string, size: nat)
    requires size > 0
  {
    exists k :: k in ks && p <= k && BucketOf(k, size) == BucketOf(p, size)
  }

  /** Within a bucket no key of the set extends another. */
  ghost predicate BucketApart(ks: set<string>, size: nat)
    requires size > 0
  {
    forall j, k :: j in ks && k in ks && j <= k && BucketOf(j, size) == BucketOf(k, size) ==> j == k
  }

  /** A search finds something exactly if a stored key of the bucket extends the given one. */
  lemma FoundIffExtended<V>(bs: seq<Chain<V>>, key: string)
    requires WellPlaced(bs)
    ensures ChainGet(Home(bs, key), key).Some? <==> Extended(Model(bs).Keys, key, |bs|)
  {
    hide Model, BucketOf;
    var c := Home(bs, key);
    var i := Find(c, key);
    ModelKeys(bs);
    if i < |c| {
      assert c[i].key in Keys(bs);
      assert key <= c[i].key && BucketOf(c[i].key, |bs|) == BucketOf(key, |bs|);
    }
    if Extended(Model(bs).Keys, key, |bs|) {
      var k :| k in Model(bs).Keys && key <= k && BucketOf(k, |bs|) == BucketOf(key, |bs|);
      var b, j :| 0 <= b < |bs| && 0 <= j < |bs[b]| && bs[b][j].key == k;
      assert b == BucketOf(k, |bs|) && Matches(c[j].key, key);
    }
  }

  lemma ApartNotShadowed<V>(bs: seq<Chain<V>>, key: string)
    requires WellPlaced(bs) && BucketApart(Keys(bs) + {key}, |bs|)
    ensures !Shadowed(Home(bs, key), key) && FirstMatch(Home(bs, key), key) == key
  {
    var b := BucketOf(key, |bs|);
    var e := Exact(bs[b], key);
    forall i | 0 <= i < e
      ensures !(key <= bs[b][i].key)
    {
      assert bs[b][i].key in Keys(bs);
    }
  }

  lemma PrefixFreeApart(ks: set<string>, size: nat)
    requires size > 0 && PrefixFree(ks)
    ensures BucketApart(ks, size)
  {
  }

  lemma ApartSubset(ks: set<string>, js: set<string>, size: nat)
    requires size > 0 && BucketApart(ks, size) && js <= ks
    ensures BucketApart(js, size)
  {
  }

  /** Whatever the keys, storing is map update at the first match. */
  lemma PutUpdatesFirstMatch<V>(bs: seq<Chain<V>>, key: string, value: V)
    requires WellPlaced(bs)
    ensures var b := BucketOf(key, |bs|);
            Model(bs[b := ChainPut(bs[b], key, value)]) == Model(bs)[FirstMatch(bs[b], key) := value]
  {
    var b := BucketOf(key, |bs|);
    var m := FirstMatch(bs[b], key);
    var bs' := bs[b := ChainPut(bs[b], key, value)];
    PutKeepsPlaces(bs, key, value);
    assert BucketOf(m, |bs|) == b;
    forall k
      ensures At(Model(bs'), k) == At(Model(bs)[m := value], k)
    {
      InModel(bs, k);
      InModel(bs', k);
      LookupAfterPut(bs[b], key, value, k);
    }
    SameMap(Model(bs'), Model(bs)[m := value]);
  }

  /** Storing is map update, on every key that is not shadowed. */
  lemma PutIsUpdate<V>(bs: seq<Chain<V>>, key: string, value: V)
    requires WellPlaced(bs) && !Shadowed(Home(bs, key), key)
    ensures var b := BucketOf(key, |bs|);
            Model(bs[b := ChainPut(bs[b], key, value)]) == Model(bs)[key := value]
  {
    PutUpdatesFirstMatch(bs, key, value);
  }

  /** Storing any of two values is map update exactly on the keys that are not shadowed. */
  lemma PutIsUpdateIff<V>(bs: seq<Chain<V>>, key: string, v: V, w: V)
    requires WellPlaced(bs) && v != w
    ensures var b := BucketOf(key, |bs|);
            (&& Model(bs[b := ChainPut(bs[b], key, v)]) == Model(bs)[key := v]
             && Model(bs[b := ChainPut(bs[b], key, w)]) == Model(bs)[key := w])
            <==> !Shadowed(Home(bs, key), key)
  {
    hide Model, ChainPut, Shadowed;
    PutUpdatesFirstMatch(bs, key, v);
    PutUpdatesFirstMatch(bs, key, w);
    var m, c := Model(bs), FirstMatch(Home(bs, key), key);
    if c != key {
      UpdatesDiffer(m, c, key, v);
      UpdatesDiffer(m, c, key, w);
    }
  }

  lemma UpdatesDiffer<V>(m: map<string, V>, c: string, key: string, v: V)
    requires c != key
    ensures m[c := v] == m[key := v] ==> key in m && m[key] == v
  {
    var n, o := m[c := v], m[key := v];
    assert (key in n <==> key in m) && (key in n ==> n[key] == m[key]);
    assert key in o && o[key] == v;
  }

  /** A key is looked up at the one node that carries it. */
  lemma LookupIs<V>(chain: Chain<V>, k: string, j: nat)
    requires DistinctKeys(chain)
    requires j <= |chain| && (j < |chain| ==> chain[j].key == k)
    requires j == |chain| ==> forall i :: 0 <= i < |chain| ==> chain[i].key != k
    ensures Exact(chain, k) == j
    ensures Lookup(chain, k) == if j < |chain| then Some(chain[j].value) else None
  {
  }

  lemma LookupAfterPut<V>(chain: Chain<V>, key: string, value: V, k: string)
    requires DistinctKeys(chain)
    ensures Lookup(ChainPut(chain, key, value), k) ==
            if k == FirstMatch(chain, key) then Some(value) else Lookup(chain, k)
  {
    var c' := ChainPut(chain, key, value);
    ChainPutKeys(chain, key, value);
    var i, e := Find(chain, key), Exact(chain, k);
    if i < |chain| {
      assert c' == chain[i := chain[i].(value := value)];
      LookupIs(c', k, if k == chain[i].key then i else e);
    } else {
      NoMatchNoKey(chain, key);
      assert c' == [Entry(key, value)] + chain;
      LookupIs(c', k, if k == key then 0 else e + 1);
    }
  }

  lemma NoMatchNoKey<V>(chain: Chain<V>, key: string)
    requires Find(chain, key) == |chain|
    ensures Exact(chain, key) == |chain| && forall i :: 0 <= i < |chain| ==> chain[i].key != key
  {
    FindIsExactIff(chain, key);
  }

  /** Replacing one chain by another whose nodes belong there keeps the table well placed. */
  lemma ReplaceChain<V>(bs: seq<Chain<V>>, b: nat, c: Chain<V>, ks: set<string>)
    requires WellPlaced(bs) && b < |bs| && DistinctKeys(c)
    requires forall j :: 0 <= j < |c| ==> BucketOf(c[j].key, |bs|) == b && c[j].key in ks
    ensures WellPlaced(bs[b := c]) && Keys(bs[b := c]) <= Keys(bs) + ks
  {
    forall k | k in Keys(bs[b := c])
      ensures k in Keys(bs) + ks
    {
      var d, j :| 0 <= d < |bs| && 0 <= j < |bs[b := c][d]| && bs[b := c][d][j].key == k;
      if d != b {
        assert bs[d][j].key == k;
      }
    }
  }

  /** Whatever the keys, a put leaves every node in its bucket and keys distinct. */
  lemma PutKeepsPlaces<V>(bs: seq<Chain<V>>, key: string, value: V)
    requires WellPlaced(bs)
    ensures var b := BucketOf(key, |bs|);
            && WellPlaced(bs[b := ChainPut(bs[b], key, value)])
            && Keys(bs[b := ChainPut(bs[b], key, value)]) <= Keys(bs) + {key}
  {
    var b := BucketOf(key, |bs|);
    var c := bs[b];
    ChainPutKeys(c, key, value);
    var c' := ChainPut(c, key, value);
    forall j | 0 <= j < |c'|
      ensures BucketOf(c'[j].key, |bs|) == b && c'[j].key in Keys(bs) + {key}
    {
      if c'[j].key != key {
        var i :| 0 <= i < |c| && c[i].key == c'[j].key;
        assert bs[b][i].key in Keys(bs);
      }
    }
    ReplaceChain(bs, b, c', Keys(bs) + {key});
    assert Keys(bs) + (Keys(bs) + {key}) == Keys(bs) + {key};
  }

  lemma ChainPutKeys<V>(c: Chain<V>, key: string, value: V)
    requires DistinctKeys(c)
    ensures var c' := ChainPut(c, key, value);
            && DistinctKeys(c')
            && forall j :: 0 <= j < |c'| ==> c'[j].key == key || exists i :: 0 <= i < |c| && c[i].key == c'[j].key
  {
    var c' := ChainPut(c, key, value);
    if Find(c, key) == |c| {
      assert forall j :: 0 < j < |c'| ==> c'[j] == c[j - 1];
      assert c'[0].key == key;
    } else {
      assert forall j :: 0 <= j < |c| ==> c'[j].key == c[j].key;
    }
  }

  /** Whatever the keys, what is looked up is the value of the first match. */
  lemma GetFindsFirstMatch<V>(bs: seq<Chain<V>>, key: string)
    requires WellPlaced(bs)
    ensures ChainGet(Home(bs, key), key) == At(Model(bs), FirstMatch(Home(bs, key), key))
  {
    var c := Home(bs, key);
    var i := Find(c, key);
    if i < |c| {
      ModelEntry(bs, BucketOf(key, |bs|), i);
    } else {
      NoMatchNoKey(c, key);
      InModel(bs, key);
    }
  }

  /** What every lookup finds after a put. A new node comes first in its chain: if no stored key of
      the bucket extends the given one, all keys that it extends there are looked up as the new
      value from then on. Otherwise exactly the lookups that end at the first match change. */
  lemma PutThenGet<V>(bs: seq<Chain<V>>, key: string, value: V, k: string)
    requires WellPlaced(bs)
    ensures var b := BucketOf(key, |bs|);
            var now := bs[b := ChainPut(bs[b], key, value)];
            ChainGet(Home(now, k), k) ==
            if BucketOf(k, |bs|) != b then ChainGet(Home(bs, k), k)
            else if !Extended(Model(bs).Keys, key, |bs|) then
              if k <= key then Some(value) else ChainGet(Home(bs, k), k)
            else if ChainGet(Home(bs, k), k).Some? && FirstMatch(bs[b], k) == FirstMatch(bs[b], key) then Some(value)
            else ChainGet(Home(bs, k), k)
  {
    FoundIffExtended(bs, key);
    hide Model, Extended, BucketOf;
    var b := BucketOf(key, |bs|);
    var c := bs[b];
    if BucketOf(k, |bs|) == b {
      if Find(c, key) == |c| {
        FindInLonger(Entry(key, value), c, k);
      } else {
        FindAfterUpdate(c, Find(c, key), value, k);
      }
    }
  }

  lemma FindInLonger<V>(e: Entry<V>, c: Chain<V>, k: string)
    ensures Find([e] + c, k) == if k <= e.key then 0 else Find(c, k) + 1
  {
    assert ([e] + c)[1..] == c;
  }

  lemma FindAfterUpdate<V>(c: Chain<V>, i: nat, value: V, k: string)
    requires DistinctKeys(c) && i < |c|
    ensures var c' := c[i := c[i].(value := value)];
            && Find(c', k) == Find(c, k)
            && (Find(c, k) < |c| && c[Find(c, k)].key == c[i].key ==> Find(c, k) == i)
  {
    var c' := c[i := c[i].(value := value)];
    var j, j' := Find(c, k), Find(c', k);
    assert forall l :: 0 <= l < |c| ==> c'[l].key == c[l].key;
    assert j < |c| ==> Matches(c'[j].key, k);
    assert j' < |c| ==> Matches(c[j'].key, k);
  }

  /** Looking up is map lookup, on every key that is not shadowed. */
  lemma GetIsLookup<V>(bs: seq<Chain<V>>, key: string)
    requires WellPlaced(bs) && !Shadowed(Home(bs, key), key)
    ensures ChainGet(Home(bs, key), key) == if key in Model(bs) then Some(Model(bs)[key]) else None
  {
    GetFindsFirstMatch(bs, key);
  }

  /** Whatever the keys, deleting takes out the first match and no other key. */
  lemma DeleteRemovesFirstMatch<V>(bs: seq<Chain<V>>, key: string)
    requires WellPlaced(bs)
    ensures var b := BucketOf(key, |bs|);
            Model(bs[b := ChainDelete(bs[b], key)]) == Model(bs) - {FirstMatch(bs[b], key)}
  {
    var b := BucketOf(key, |bs|);
    var m, bs' := FirstMatch(bs[b], key), bs[b := ChainDelete(bs[b], key)];
    hide Model, ChainDelete, FirstMatch, BucketOf, WellPlaced, At;
    forall k
      ensures At(Model(bs'), k) == At(Model(bs) - {m}, k)
    {
      DeleteAt(bs, key, k);
      MinusAt(Model(bs), m, k);
    }
    SameMap(Model(bs'), Model(bs) - {m});
  }

  lemma MinusAt<V>(m: map<string, V>, x: string, k: string)
    ensures At(m - {x}, k) == if k == x then None else At(m, k)
  {
  }

  /** Deleting is map removal exactly on the keys that are not shadowed. */
  lemma DeleteIsRemoval<V>(bs: seq<Chain<V>>, key: string)
    requires WellPlaced(bs)
    ensures var b := BucketOf(key, |bs|);
            Model(bs[b := ChainDelete(bs[b], key)]) == Model(bs) - {key} <==> !Shadowed(Home(bs, key), key)
  {
    hide Model, ChainDelete;
    DeleteRemovesFirstMatch(bs, key);
    ShadowIsStored(bs, key);
    var c := FirstMatch(Home(bs, key), key);
    assert c != key ==> c in Model(bs) - {key};
  }

  /** What shadows a key is another key of the table. */
  lemma ShadowIsStored<V>(bs: seq<Chain<V>>, key: string)
    requires WellPlaced(bs)
    ensures var c := FirstMatch(Home(bs, key), key); c != key ==> c in Model(bs) && key <= c
  {
    var c := Home(bs, key);
    var i := Find(c, key);
    if i < |c| {
      ModelEntry(bs, BucketOf(key, |bs|), i);
      assert Matches(c[i].key, key);
    }
  }

  lemma DeleteAt<V>(bs: seq<Chain<V>>, key: string, k: string)
    requires WellPlaced(bs)
    ensures var b := BucketOf(key, |bs|);
            At(Model(bs[b := ChainDelete(bs[b], key)]), k) ==
            if k == FirstMatch(bs[b], key) then None else At(Model(bs), k)
  {
    var b := BucketOf(key, |bs|);
    var bs' := bs[b := ChainDelete(bs[b], key)];
    DeleteKeepsPlaces(bs, key);
    InModel(bs, k);
    InModel(bs', k);
    assert BucketOf(FirstMatch(bs[b], key), |bs|) == b;
    if BucketOf(k, |bs|) == b {
      LookupAfterDelete(bs[b], key, k);
    }
  }

  /** Taking one node out keeps the rest in order. */
  lemma TakenOut<V>(c: Chain<V>, c': Chain<V>, i: nat)
    requires DistinctKeys(c) && i < |c| && c' == c[..i] + c[i + 1..]
    ensures |c'| == |c| - 1 && DistinctKeys(c')
    ensures forall j {:trigger c'[j]} :: 0 <= j < |c'| ==> c'[j] == c[if j < i then j else j + 1]
  {
  }

  lemma LookupAfterDelete<V>(c: Chain<V>, key: string, k: string)
    requires DistinctKeys(c)
    ensures Lookup(ChainDelete(c, key), k) == if k == FirstMatch(c, key) then None else Lookup(c, k)
  {
    var i, c' := Find(c, key), ChainDelete(c, key);
    if i < |c| {
      TakenOut(c, c', i);
      LookupTakenOut(c, c', i, k);
    } else {
      NoMatchNoKey(c, key);
    }
  }

  lemma LookupTakenOut<V>(c: Chain<V>, c': Chain<V>, i: nat, k: string)
    requires DistinctKeys(c) && i < |c| && |c'| == |c| - 1 && DistinctKeys(c')
    requires forall j {:trigger c'[j]} :: 0 <= j < |c'| ==> c'[j] == c[if j < i then j else j + 1]
    ensures Lookup(c', k) == if k == c[i].key then None else Lookup(c, k)
  {
    hide Exact;
    var e := Exact(c, k);
    if k == c[i].key {
      LookupIs(c', k, |c'|);
    } else if e < i {
      LookupIs(c', k, e);
    } else {
      LookupIs(c', k, e - 1);
    }
  }

  lemma DeleteKeepsPlaces<V>(bs: seq<Chain<V>>, key: string)
    requires WellPlaced(bs)
    ensures var b := BucketOf(key, |bs|);
            && WellPlaced(bs[b := ChainDelete(bs[b], key)])
            && Keys(bs[b := ChainDelete(bs[b], key)]) <= Keys(bs)
  {
    var b := BucketOf(key, |bs|);
    var c := bs[b];
    var c' := ChainDelete(c, key);
    var i := Find(c, key);
    if i < |c| {
      TakenOut(c, c', i);
      forall j | 0 <= j < |c'|
        ensures BucketOf(c'[j].key, |bs|) == b && c'[j].key in Keys(bs)
      {
        var j' := if j < i then j else j + 1;
        assert c'[j] == bs[b][j'];
        assert bs[b][j'].key in Keys(bs);
      }
      ReplaceChain(bs, b, c', Keys(bs));
      assert Keys(bs) + Keys(bs) == Keys(bs);
    } else {
      assert bs[b := c'] == bs;
    }
  }

  /** A shadowed key: a put of "1-2" lands in the node of "1-2-3" and loses its value. */
  lemma PrefixOverwrites(v: int, w: int)
    requires v != w
    ensures var chain := [Entry("1-2-3", v)];
            && Shadowed(chain, "1-2")
            && ChainGet(chain, "1-2") == Some(v)
            && ChainPut(chain, "1-2", w) == [Entry("1-2-3", w)]
  {
    var chain := [Entry("1-2-3", v)];
    assert "1-2" <= chain[0].key;
    assert chain[0].key != "1-2";
    assert Exact(chain, "1-2") == 1 + Exact(chain[1..], "1-2");
  }

  // ---------------------------------------------------------------- the table itself

  class HashTable<V> {
    const buckets: array<Chain<V>>

    ghost predicate Valid()
      reads this, buckets
    {
      WellPlaced(buckets[..])
    }

    /** `hash_table_create`. */
    constructor (size: nat)
      requires size > 0
      ensures Valid() && fresh(buckets) && buckets.Length == size
      ensures forall b :: 0 <= b < size ==> buckets[b] == []
    {
      buckets := new Chain<V>[size](_ => []);
    }

    /** `hash_table_put` and `hash_table_put_str`, which differ only in copying the key. */
    method Put(key: string, value: V)
      requires Valid() && key != ""
      modifies buckets
      ensures Valid()
      ensures var b := BucketOf(key, buckets.Length); var was := old(buckets[..]);
              buckets[..] == was[b := ChainPut(was[b], key, value)]
      ensures Model(buckets[..]) == Model(old(buckets[..]))[FirstMatch(Home(old(buckets[..]), key), key) := value]
      ensures !Shadowed(Home(old(buckets[..]), key), key) ==>
                Model(buckets[..]) == Model(old(buckets[..]))[key := value]
    {
      hide Model, Shadowed, FirstMatch, Polynomial, BucketOf;
      ghost var was := buckets[..];
      PutKeepsPlaces(was, key, value);
      PutUpdatesFirstMatch(was, key, value);
      var b := HashFunc(key, buckets.Length);
      var chain := buckets[b];
      var i := 0;
      while i < |chain|
        invariant 0 <= i <= |chain|
        invariant forall j :: 0 <= j < i ==> !Matches(chain[j].key, key)
      {
        if key <= chain[i].key {
          buckets[b] := chain[i := chain[i].(value := value)];
          assert i == Find(chain, key);
          assert buckets[..] == was[b := ChainPut(chain, key, value)];
          return;
        }
        i := i + 1;
      }
      buckets[b] := [Entry(key, value)] + chain;
      assert i == Find(chain, key);
      assert buckets[..] == was[b := ChainPut(chain, key, value)];
    }

    /** `hash_table_get`. */
    method Get(key: string) returns (r: Option<V>)
      requires Valid() && key != ""
      ensures r == ChainGet(Home(buckets[..], key), key)
      ensures r == At(Model(buckets[..]), FirstMatch(Home(buckets[..], key), key))
      ensures !Shadowed(Home(buckets[..], key), key) ==>
                r == if key in Model(buckets[..]) then Some(Model(buckets[..])[key]) else None
    {
      hide Model, Shadowed, FirstMatch, Polynomial;
      GetFindsFirstMatch(buckets[..], key);
      var b := HashFunc(key, buckets.Length);
      var chain := buckets[b];
      var i := 0;
      while i < |chain|
        invariant 0 <= i <= |chain|
        invariant forall j :: 0 <= j < i ==> !Matches(chain[j].key, key)
      {
        if key <= chain[i].key {
          assert i == Find(chain, key);
          return Some(chain[i].value);
        }
        i := i + 1;
      }
      assert i == Find(chain, key);
      return None;
    }

    /** `hash_table_delete`. */
    method Delete(key: string)
      requires Valid() && key != ""
      modifies buckets
      ensures Valid()
      ensures var b := BucketOf(key, buckets.Length); var was := old(buckets[..]);
              buckets[..] == was[b := ChainDelete(was[b], key)]
      ensures Model(buckets[..]) == Model(old(buckets[..])) - {FirstMatch(Home(old(buckets[..]), key), key)}
      ensures Model(buckets[..]) == Model(old(buckets[..])) - {key} <==> !Shadowed(Home(old(buckets[..]), key), key)
    {
      hide Model, Shadowed, FirstMatch, Polynomial, BucketOf;
      ghost var was := buckets[..];
      DeleteKeepsPlaces(was, key);
      DeleteRemovesFirstMatch(was, key);
      DeleteIsRemoval(was, key);
      var b := HashFunc(key, buckets.Length);
      var chain := buckets[b];
      var i := 0;
      while i < |chain|
        invariant 0 <= i <= |chain|
        invariant forall j :: 0 <= j < i ==> !Matches(chain[j].key, key)
      {
        if key <= chain[i].key {
          buckets[b] := chain[..i] + chain[i + 1..];
          assert i == Find(chain, key);
          assert buckets[..] == was[b := ChainDelete(chain, key)];
          return;
        }
        i := i + 1;
      }
      assert i == Find(chain, key);
      assert buckets[..] == was[b := ChainDelete(chain, key)];
    }
  }

  /** Delete-if-present then put, on the chains. */
  ghost function Overwrite<V>(bs: seq<Chain<V>>, key: string, value: V): seq<Chain<V>>
    requires |bs| > 0
  {
    var b := BucketOf(key, |bs|);
    var mid := if ChainGet(bs[b], key).Some? then bs[b := ChainDelete(bs[b], key)] else bs;
    mid[b := ChainPut(mid[b], key, value)]
  }

  /** No node of the chain but the key's own extends the key. */
  ghost predicate Alone<V>(c: Chain<V>, key: string) {
    forall i :: 0 <= i < |c| && key <= c[i].key ==> c[i].key == key
  }

  /** Whatever the keys: the first match is taken out, and the value stored at the next one. */
  lemma OverwriteModel<V>(bs: seq<Chain<V>>, key: string, value: V)
    requires WellPlaced(bs)
    ensures var c := Home(bs, key);
            var rest := if ChainGet(c, key).Some? then ChainDelete(c, key) else c;
            var m := if ChainGet(c, key).Some? then Model(bs) - {FirstMatch(c, key)} else Model(bs);
            && WellPlaced(Overwrite(bs, key, value))
            && Model(Overwrite(bs, key, value)) == m[FirstMatch(rest, key) := value]
            && (forall i :: 0 <= i < |rest| ==> rest[i].key in m)
  {
    hide Model, ChainPut, ChainGet, FirstMatch, Shadowed;
    var b := BucketOf(key, |bs|);
    var found := ChainGet(bs[b], key).Some?;
    var mid := if found then bs[b := ChainDelete(bs[b], key)] else bs;
    DeleteKeepsPlaces(bs, key);
    DeleteRemovesFirstMatch(bs, key);
    PutKeepsPlaces(mid, key, value);
    PutUpdatesFirstMatch(mid, key, value);
    forall i | 0 <= i < |mid[b]|
      ensures mid[b][i].key in Model(mid)
    {
      ModelEntry(mid, b, i);
    }
  }

  /** Delete-if-present then put is one map overwrite exactly if no other key of the chain extends
      the given one: where one stands behind it, the key is deleted and the value goes there. */
  lemma OverwriteIsUpdate<V>(bs: seq<Chain<V>>, key: string, value: V)
    requires WellPlaced(bs)
    ensures Model(Overwrite(bs, key, value)) == Model(bs)[key := value] <==> Alone(Home(bs, key), key)
  {
    var c := Home(bs, key);
    var found := ChainGet(c, key).Some?;
    var rest := if found then ChainDelete(c, key) else c;
    OverwriteModel(bs, key, value);
    ShadowIsStored(bs, key);
    AloneIff(c, key);
    var f1, f2, m := FirstMatch(c, key), FirstMatch(rest, key), Model(bs);
    hide Model, FirstMatch, ChainDelete, Alone, Overwrite;
    if f1 == key && f2 == key {
      PutBack(m, key, value);
    } else if f1 != key {
      assert f1 in m && f1 in m[key := value] && f1 !in (m - {f1})[f2 := value];
    } else {
      assert key in m[key := value] && key !in (m - {key})[f2 := value];
    }
  }

  lemma PrefixFreeAlone<V>(bs: seq<Chain<V>>, key: string)
    requires WellPlaced(bs) && PrefixFree(Keys(bs) + {key})
    ensures Alone(Home(bs, key), key)
  {
    var b := BucketOf(key, |bs|);
    forall i | 0 <= i < |bs[b]| && key <= bs[b][i].key
      ensures bs[b][i].key == key
    {
      assert bs[b][i].key in Keys(bs);
    }
  }

  lemma AloneIff<V>(c: Chain<V>, key: string)
    requires DistinctKeys(c)
    ensures var found := ChainGet(c, key).Some?;
            var rest := if found then ChainDelete(c, key) else c;
            && (Alone(c, key) <==> FirstMatch(c, key) == key && FirstMatch(rest, key) == key)
            && (!found ==> FirstMatch(c, key) == key)
            && (FirstMatch(c, key) != key ==> FirstMatch(rest, key) != FirstMatch(c, key))
  {
    var i := Find(c, key);
    NoneMatches(c, key);
    if i < |c| {
      var rest := ChainDelete(c, key);
      assert rest == c[..i] + c[i + 1..];
      RestOf(c, rest, i);
      MatchInRest(c, rest, i, key);
    }
  }

  lemma NoneMatches<V>(c: Chain<V>, key: string)
    ensures Find(c, key) == |c| <==> forall x :: x in c ==> !(key <= x.key)
  {
    var i := Find(c, key);
    if i < |c| {
      assert c[i] in c && Matches(c[i].key, key);
    } else {
      forall x | x in c
        ensures !(key <= x.key)
      {
        var k :| 0 <= k < |c| && c[k] == x;
        assert !Matches(c[k].key, key);
      }
    }
  }

  lemma RestOf<V>(c: Chain<V>, rest: Chain<V>, i: nat)
    requires DistinctKeys(c) && i < |c| && rest == c[..i] + c[i + 1..]
    ensures forall x :: x in rest ==> x in c && x.key != c[i].key
    ensures forall x :: x in c && x.key != c[i].key ==> x in rest
  {
    forall x | x in c && x.key != c[i].key
      ensures x in rest
    {
      var k :| 0 <= k < |c| && c[k] == x;
      assert x == rest[if k < i then k else k - 1];
    }
  }

  lemma MatchInRest<V>(c: Chain<V>, rest: Chain<V>, i: nat, key: string)
    requires DistinctKeys(c) && i == Find(c, key) < |c|
    requires forall x :: x in rest ==> x in c && x.key != c[i].key
    requires forall x :: x in c && x.key != c[i].key ==> x in rest
    ensures Alone(c, key) <==> c[i].key == key && FirstMatch(rest, key) == key
    ensures c[i].key != key ==> FirstMatch(rest, key) != c[i].key
  {
    hide DistinctKeys, Shadowed;
    NoneMatches(rest, key);
    var j := Find(rest, key);
    assert Matches(c[i].key, key);
    if j < |rest| {
      assert rest[j] in rest && Matches(rest[j].key, key);
      var k :| 0 <= k < |c| && c[k] == rest[j];
    } else if c[i].key == key {
      forall k | 0 <= k < |c| && key <= c[k].key
        ensures c[k].key == key
      {
        assert c[k] in c;
      }
    }
  }

  lemma PrefixFreeSubset(ks: set<string>, js: set<string>)
    requires PrefixFree(ks) && js <= ks
    ensures PrefixFree(js)
  {
  }

  lemma PutBack<V>(m: map<string, V>, key: string, value: V)
    ensures (m - {key})[key := value] == m[key := value]
  {
  }

  /** `update_network_map`: the table is overwritten at one key and no other entry changes exactly
      if no other key of its chain extends it, as on prefix-free keys. */
  method UpdateNetworkMap<V>(ht: HashTable<V>, uuid: string, config: V)
    requires ht.Valid() && uuid != ""
    modifies ht.buckets
    ensures ht.Valid()
    ensures ht.buckets[..] == Overwrite(old(ht.buckets[..]), uuid, config)
    ensures Model(ht.buckets[..]) == Model(old(ht.buckets[..]))[uuid := config] <==>
            Alone(Home(old(ht.buckets[..]), uuid), uuid)
    ensures PrefixFree(Keys(old(ht.buckets[..])) + {uuid}) ==>
              Model(ht.buckets[..]) == Model(old(ht.buckets[..]))[uuid := config]
  {
    ghost var was := ht.buckets[..];
    var found := ht.Get(uuid);
    if found.Some? {
      ht.Delete(uuid);
    }
    ht.Put(uuid, config);
    OverwriteIsUpdate(was, uuid, config);
    if PrefixFree(Keys(was) + {uuid}) {
      PrefixFreeAlone(was, uuid);
    }
  }
}
