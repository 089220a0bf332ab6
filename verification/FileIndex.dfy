/**
 The index from content paths to the nodes said to hold them: filled by scanning the content
 directory (main.c) and by the file maps that come with advertisements (conf_utils.c). Paths
 and holders are held by value; a table of holders is a set of uuids.
 */
module FileIndexes {
  import opened Wrappers
  import opened HashTables

  datatype FileInfo = FileInfo(path: string, holders: set<string>)

  type Index = map<string, FileInfo>

  // ---------------------------------------------------------------- learning from a peer

  /** One advertised path: the sender joins its holders. */
  function Noted(was: Option<FileInfo>, seen: FileInfo, uuid: string): FileInfo {
    if was.Some? then was.value.(holders := was.value.holders + {uuid}) else FileInfo(seen.path, {uuid})
  }

  /** What an index knows after a peer's file map. */
  ghost function Learned(local: Index, adv: Index, uuid: string): Index {
    map p | p in local.Keys + adv.Keys :: if p in adv then Noted(At(local, p), adv[p], uuid) else local[p]
  }

  ghost function Holders(m: Index, p: string): set<string> {
    if p in m then m[p].holders else {}
  }

  /** A union on the relation between paths and uuids: nothing is forgotten, repeating an
      advertisement changes nothing, and two advertisements may come in either order. A record
      keeps the real path it first came with. */
  lemma LearnedIsUnion(local: Index, a: Index, u: string, b: Index, v: string, p: string)
    ensures Learned(local, a, u).Keys == local.Keys + a.Keys
    ensures p in local.Keys + a.Keys ==> Learned(local, a, u)[p].path == (if p in local then local[p] else a[p]).path
    ensures Holders(Learned(local, a, u), p) == Holders(local, p) + (if p in a then {u} else {})
    ensures Learned(Learned(local, a, u), a, u) == Learned(local, a, u)
    ensures var ab, ba := Learned(Learned(local, a, u), b, v), Learned(Learned(local, b, v), a, u);
            ab.Keys == ba.Keys && Holders(ab, p) == Holders(ba, p)
  {
    hide Learned;
    LearnedTwice(local, a, u);
    LearnedHolders(local, a, u, p);
    LearnedHolders(local, b, v, p);
    LearnedHolders(Learned(local, a, u), b, v, p);
    LearnedHolders(Learned(local, b, v), a, u, p);
  }

  lemma LearnedHolders(local: Index, a: Index, u: string, p: string)
    ensures Learned(local, a, u).Keys == local.Keys + a.Keys
    ensures p in local.Keys + a.Keys ==> Learned(local, a, u)[p].path == (if p in local then local[p] else a[p]).path
    ensures Holders(Learned(local, a, u), p) == Holders(local, p) + (if p in a then {u} else {})
  {
  }

  lemma LearnedTwice(local: Index, a: Index, u: string)
    ensures Learned(Learned(local, a, u), a, u) == Learned(local, a, u)
  {
    var once := Learned(local, a, u);
    var twice := Learned(once, a, u);
    forall k
      ensures At(twice, k) == At(once, k)
    {
      if k in a {
        assert once[k].holders + {u} == once[k].holders;
      }
    }
    SameMap(twice, once);
  }

  // ---------------------------------------------------------------- on the table

  type Files = seq<Chain<FileInfo>>

  /** What one advertised path does to the table: the write goes to the node the search finds. */
  ghost function LearnPath(bs: Files, e: Entry<FileInfo>, uuid: string): (r: Files)
    requires |bs| > 0
    ensures |r| == |bs|
  {
    var b := BucketOf(e.key, |bs|);
    bs[b := ChainPut(bs[b], e.key, Noted(ChainGet(bs[b], e.key), e.value, uuid))]
  }

  ghost function LearnAll(bs: Files, es: Chain<FileInfo>, uuid: string): (r: Files)
    requires |bs| > 0
    ensures |r| == |bs|
    decreases |es|
  {
    if es == [] then bs else LearnAll(LearnPath(bs, es[0], uuid), es[1..], uuid)
  }

  /** The nodes of a table in the order in which its buckets and chains are walked. */
  function Nodes<V>(bs: seq<Chain<V>>): Chain<V> {
    if bs == [] then [] else bs[0] + Nodes(bs[1..])
  }

  /** Whatever the keys: the sender joins the holders of the first stored path that extends the
      advertised one, or the advertised path is stored if there is none. */
  lemma LearnPathModel(bs: Files, e: Entry<FileInfo>, uuid: string)
    requires WellPlaced(bs)
    ensures WellPlaced(LearnPath(bs, e, uuid))
    ensures var m, c := Model(bs), FirstMatch(Home(bs, e.key), e.key);
            Model(LearnPath(bs, e, uuid)) == m[c := Noted(At(m, c), e.value, uuid)]
  {
    assert |bs| > 0;
    hide Model, ChainPut, ChainGet, FirstMatch, WellPlaced, Noted;
    var v := Noted(ChainGet(Home(bs, e.key), e.key), e.value, uuid);
    PutKeepsPlaces(bs, e.key, v);
    PutUpdatesFirstMatch(bs, e.key, v);
    GetFindsFirstMatch(bs, e.key);
  }

  /** That is learning the path itself exactly if no such path is in the way, or the sender is
      known already at both. */
  lemma LearnPathIff(bs: Files, e: Entry<FileInfo>, uuid: string)
    requires WellPlaced(bs)
    ensures var m, c := Model(bs), FirstMatch(Home(bs, e.key), e.key);
            Model(LearnPath(bs, e, uuid)) == m[e.key := Noted(At(m, e.key), e.value, uuid)] <==>
            !Shadowed(Home(bs, e.key), e.key) || (uuid in Holders(m, e.key) && uuid in Holders(m, c))
  {
    assert |bs| > 0;
    hide Model, LearnPath, Shadowed, WellPlaced;
    var m, c := Model(bs), FirstMatch(Home(bs, e.key), e.key);
    LearnPathModel(bs, e, uuid);
    ShadowIsStored(bs, e.key);
    if c != e.key {
      TwoNotes(m, c, e.key, e.value, uuid);
    }
  }

  lemma TwoNotes(m: Index, c: string, key: string, seen: FileInfo, uuid: string)
    requires c != key && c in m
    ensures m[c := Noted(At(m, c), seen, uuid)] == m[key := Noted(At(m, key), seen, uuid)] <==>
            uuid in Holders(m, key) && uuid in Holders(m, c)
  {
    var v, w := Noted(At(m, c), seen, uuid), Noted(At(m, key), seen, uuid);
    UpdatesDiffer(m, c, key, w);
    var n, o := m[c := v], m[key := w];
    assert uuid in v.holders && uuid in w.holders;
    assert n[c] == v && o[key] == w && o[c] == m[c];
    assert key in n <==> key in m;
    assert key in m ==> n[key] == m[key];
    if uuid in Holders(m, key) && uuid in Holders(m, c) {
      assert m[c].holders + {uuid} == m[c].holders && m[key].holders + {uuid} == m[key].holders;
      assert v == m[c] && w == m[key];
      assert n == m && o == m;
    }
  }

  /** The body of the innermost loop of `update_peer_to_files_map`. */
  method LearnOne(local: HashTable<FileInfo>, key: string, seen: FileInfo, uuid: string)
    requires local.Valid() && key != ""
    modifies local.buckets
    ensures local.Valid()
    ensures local.buckets[..] == LearnPath(old(local.buckets[..]), Entry(key, seen), uuid)
  {
    var found := local.Get(key);
    if found.Some? {
      // the write goes through the pointer the lookup returned
      local.Put(key, found.value.(holders := found.value.holders + {uuid}));
    } else {
      local.Put(key, FileInfo(seen.path, {uuid}));
    }
  }

  /** `update_peer_to_files_map`, for any paths. Where within a bucket no path of either table
      extends another, it is a union of maps. */
  method UpdatePeerToFilesMap(local: HashTable<FileInfo>, peers: HashTable<FileInfo>, uuid: string)
    requires local.Valid() && peers.Valid() && local.buckets != peers.buckets && "" !in Keys(peers.buckets[..])
    modifies local.buckets
    ensures local.Valid()
    ensures local.buckets[..] == LearnAll(old(local.buckets[..]), Nodes(peers.buckets[..]), uuid)
    ensures BucketApart(Keys(old(local.buckets[..])) + Keys(peers.buckets[..]), local.buckets.Length) ==>
              Model(local.buckets[..]) == Learned(Model(old(local.buckets[..])), Model(peers.buckets[..]), uuid)
  {
    ghost var was, theirs := local.buckets[..], peers.buckets[..];
    assert |was| > 0;
    hide WellPlaced, Model, Keys, BucketApart, Learned, LearnAll, Nodes;
    ghost var all := LearnAll(was, Nodes(theirs), uuid);
    assert theirs[0..] == theirs;
    for i := 0 to peers.buckets.Length
      invariant local.Valid() && peers.buckets[..] == theirs
      invariant |local.buckets[..]| == |was| && LearnAll(local.buckets[..], Nodes(theirs[i..]), uuid) == all
    {
      var chain := peers.buckets[i];
      assert chain == theirs[i];
      NodesFrom(theirs, i);
      LearnChain(local, chain, uuid, Nodes(theirs[i + 1..]), theirs);
      assert peers.buckets[..] == theirs;
    }
    NodesFrom(theirs, |theirs|);
    LearnNone(local.buckets[..], uuid);
    if BucketApart(Keys(was) + Keys(theirs), |was|) {
      LearnedApart(was, theirs, uuid);
    }
  }

  /** The inner loop, over one chain. */
  method LearnChain(local: HashTable<FileInfo>, chain: Chain<FileInfo>, uuid: string,
                    ghost rest: Chain<FileInfo>, ghost theirs: Files)
    requires local.Valid() && "" !in Keys(theirs) && chain in theirs
    modifies local.buckets
    ensures local.Valid()
    ensures LearnAll(local.buckets[..], rest, uuid) == LearnAll(old(local.buckets[..]), chain + rest, uuid)
  {
    KeysOfChain(theirs, chain);
    hide WellPlaced, Keys, LearnAll, LearnPath;
    ghost var all := LearnAll(local.buckets[..], chain + rest, uuid);
    assert chain[0..] == chain;
    for k := 0 to |chain|
      invariant local.Valid() && |local.buckets[..]| > 0
      invariant LearnAll(local.buckets[..], chain[k..] + rest, uuid) == all
    {
      LearnNext(local.buckets[..], chain, k, rest, uuid);
      LearnOne(local, chain[k].key, chain[k].value, uuid);
    }
    assert chain[|chain|..] + rest == rest;
  }

  lemma KeysOfChain(theirs: Files, chain: Chain<FileInfo>)
    requires "" !in Keys(theirs) && chain in theirs
    ensures forall k :: 0 <= k < |chain| ==> chain[k].key != ""
  {
    var b :| 0 <= b < |theirs| && theirs[b] == chain;
    forall k | 0 <= k < |chain|
      ensures chain[k].key != ""
    {
      assert theirs[b][k].key in Keys(theirs);
    }
  }

  lemma LearnNext(bs: Files, chain: Chain<FileInfo>, k: nat, rest: Chain<FileInfo>, uuid: string)
    requires |bs| > 0 && k < |chain|
    ensures LearnAll(bs, chain[k..] + rest, uuid) ==
            LearnAll(LearnPath(bs, chain[k], uuid), chain[k + 1..] + rest, uuid)
  {
    var es := chain[k..] + rest;
    assert es[0] == chain[k] && es[1..] == chain[k + 1..] + rest;
  }

  lemma LearnNone(bs: Files, uuid: string)
    requires |bs| > 0
    ensures LearnAll(bs, [], uuid) == bs
  {
  }

  lemma NodesFrom<V>(bs: seq<Chain<V>>, i: nat)
    requires i <= |bs|
    ensures Nodes(bs[i..]) == if i < |bs| then bs[i] + Nodes(bs[i + 1..]) else []
  {
    if i < |bs| {
      assert bs[i..][1..] == bs[i + 1..];
    }
  }

  // ---------------------------------------------------------------- where no path is in the way

  lemma {:induction false} NodeOf<V>(bs: seq<Chain<V>>, e: Entry<V>)
    ensures e in Nodes(bs) <==> exists b :: 0 <= b < |bs| && e in bs[b]
    decreases |bs|
  {
    if bs != [] {
      NodeOf(bs[1..], e);
      assert e in Nodes(bs) <==> e in bs[0] || e in Nodes(bs[1..]);
      hide Nodes;
      if b :| 0 <= b < |bs[1..]| && e in bs[1..][b] {
        assert e in bs[b + 1];
      }
      if b :| 0 <= b < |bs| && e in bs[b] {
        assert b > 0 ==> bs[1..][b - 1] == bs[b];
      }
    }
  }

  ghost function EntryMap(es: Chain<FileInfo>): Index {
    if es == [] then map[] else EntryMap(es[1..])[es[0].key := es[0].value]
  }

  lemma {:induction false} EntryMapOf(es: Chain<FileInfo>, m: Index)
    requires forall e :: e in es ==> e.key in m && m[e.key] == e.value
    ensures forall k :: k in EntryMap(es) <==> exists e :: e in es && e.key == k
    ensures forall k :: k in EntryMap(es) ==> k in m && EntryMap(es)[k] == m[k]
    decreases |es|
  {
    if es != [] {
      EntryMapOf(es[1..], m);
      assert es == [es[0]] + es[1..];
    }
  }

  lemma NodesMap(bs: Files)
    requires WellPlaced(bs)
    ensures EntryMap(Nodes(bs)) == Model(bs)
  {
    hide Model, EntryMap, Nodes;
    var es := Nodes(bs);
    ModelKeys(bs);
    forall e | e in es
      ensures e.key in Model(bs) && Model(bs)[e.key] == e.value
    {
      NodeOf(bs, e);
      var b :| 0 <= b < |bs| && e in bs[b];
      var i :| 0 <= i < |bs[b]| && bs[b][i] == e;
      ModelEntry(bs, b, i);
    }
    EntryMapOf(es, Model(bs));
    forall k | k in Model(bs)
      ensures k in EntryMap(es)
    {
      var b, i :| 0 <= b < |bs| && 0 <= i < |bs[b]| && bs[b][i].key == k;
      NodeOf(bs, bs[b][i]);
    }
    SameMap(EntryMap(es), Model(bs));
  }

  lemma LearnCons(m: Index, k: string, seen: FileInfo, rest: Index, u: string)
    ensures Learned(m[k := Noted(At(m, k), seen, u)], rest, u) == Learned(m, rest[k := seen], u)
  {
    var a, b := Learned(m[k := Noted(At(m, k), seen, u)], rest, u), Learned(m, rest[k := seen], u);
    forall p
      ensures At(a, p) == At(b, p)
    {
      if p == k && k in rest {
        var n := Noted(At(m, k), seen, u);
        assert n.holders + {u} == n.holders;
      }
    }
    SameMap(a, b);
  }

  lemma {:induction false} LearnAllApart(bs: Files, es: Chain<FileInfo>, uuid: string, all: set<string>)
    requires WellPlaced(bs) && Keys(bs) <= all && BucketApart(all, |bs|)
    requires forall e :: e in es ==> e.key in all
    ensures Model(LearnAll(bs, es, uuid)) == Learned(Model(bs), EntryMap(es), uuid)
    decreases |es|
  {
    assert |bs| > 0;
    hide Model, Learned, WellPlaced, FirstMatch, BucketApart, Shadowed;
    if es == [] {
      LearnNothing(Model(bs), uuid);
    } else {
      var e := es[0];
      ModelKeys(bs);
      ApartSubset(all, Keys(bs) + {e.key}, |bs|);
      ApartNotShadowed(bs, e.key);
      LearnPathModel(bs, e, uuid);
      ModelKeys(LearnPath(bs, e, uuid));
      LearnAllApart(LearnPath(bs, e, uuid), es[1..], uuid, all);
      LearnCons(Model(bs), e.key, e.value, EntryMap(es[1..]), uuid);
    }
  }

  lemma LearnNothing(m: Index, uuid: string)
    ensures Learned(m, map[], uuid) == m
  {
    SameMap(Learned(m, map[], uuid), m);
  }

  lemma LearnedApart(bs: Files, theirs: Files, uuid: string)
    requires WellPlaced(bs) && WellPlaced(theirs) && BucketApart(Keys(bs) + Keys(theirs), |bs|)
    ensures Model(LearnAll(bs, Nodes(theirs), uuid)) == Learned(Model(bs), Model(theirs), uuid)
  {
    hide Model, Learned, LearnAll, BucketApart;
    forall e | e in Nodes(theirs)
      ensures e.key in Keys(theirs)
    {
      NodeOf(theirs, e);
      var b :| 0 <= b < |theirs| && e in theirs[b];
      var i :| 0 <= i < |theirs[b]| && theirs[b][i] == e;
    }
    LearnAllApart(bs, Nodes(theirs), uuid, Keys(bs) + Keys(theirs));
    NodesMap(theirs);
  }

  // ---------------------------------------------------------------- where paths may land

  /** A path lands on a stored path of its bucket that extends it, or on itself if none does. */
  ghost predicate Landing(m: Index, key: string, c: string, size: nat)
    requires size > 0
  {
    if Extended(m.Keys, key, size) then c in m && key <= c && BucketOf(c, size) == BucketOf(key, size) else c == key
  }

  /** The paths are learned one after the other, each wherever it lands. */
  ghost predicate LearnsTo(m: Index, es: Chain<FileInfo>, uuid: string, size: nat, m': Index)
    requires size > 0
    decreases |es|
  {
    if es == [] then m' == m
    else
      exists c ::
        && Landing(m, es[0].key, c, size)
        && LearnsTo(m[c := Noted(At(m, c), es[0].value, uuid)], es[1..], uuid, size, m')
  }

  /** What the handler does to the table is such a course of landings. */
  lemma {:induction false} LearnAllLands(bs: Files, es: Chain<FileInfo>, uuid: string)
    requires WellPlaced(bs)
    ensures WellPlaced(LearnAll(bs, es, uuid))
    ensures LearnsTo(Model(bs), es, uuid, |bs|, Model(LearnAll(bs, es, uuid)))
    decreases |es|
  {
    hide Model, FirstMatch, Landing;
    if es != [] {
      LearnPathModel(bs, es[0], uuid);
      FirstMatchLands(bs, es[0].key);
      LearnAllLands(LearnPath(bs, es[0], uuid), es[1..], uuid);
    }
  }

  lemma FirstMatchLands(bs: Files, key: string)
    requires WellPlaced(bs)
    ensures Landing(Model(bs), key, FirstMatch(Home(bs, key), key), |bs|)
  {
    hide Model;
    FoundIffExtended(bs, key);
    var c := Home(bs, key);
    var i := Find(c, key);
    if i < |c| {
      ModelEntry(bs, BucketOf(key, |bs|), i);
      assert Matches(c[i].key, key);
    }
  }

  /** The paths of `ks` that no other path of its bucket in `ks` extends. */
  ghost predicate Outermost(ks: set<string>, p: string, size: nat)
    requires size > 0
  {
    p in ks && forall k :: k in ks && p <= k && BucketOf(k, size) == BucketOf(p, size) ==> k == p
  }
  /** The keys of a table into which paths are put one after the other: a path that a stored one
      extends goes to its node and brings no key of its own. */
  ghost function PutKeys(ks: set<string>, ps: seq<string>, size: nat): set<string>
    requires size > 0
    decreases |ps|
  {
    if ps == [] then ks else PutKeys(if Extended(ks, ps[0], size) then ks else ks + {ps[0]}, ps[1..], size)
  }

  lemma PutAddsKey(bs: Files, p: string, v: FileInfo)
    requires WellPlaced(bs)
    ensures var b := BucketOf(p, |bs|);
            Model(bs[b := ChainPut(bs[b], p, v)]).Keys == PutKeys(Model(bs).Keys, [p], |bs|)
  {
    hide Model, FirstMatch;
    PutUpdatesFirstMatch(bs, p, v);
    FirstMatchLands(bs, p);
    assert [p][1..] == [];
  }

  /** A table rebuilt from advertised paths has none but those, and all of the outermost. */
  lemma {:induction false} RebuiltKeys(ks: set<string>, ps: seq<string>, size: nat, p: string)
    requires size > 0
    ensures PutKeys(ks, ps, size) <= ks + Elements(ps)
    ensures p in ks ==> p in PutKeys(ks, ps, size)
    ensures Outermost(ks + Elements(ps), p, size) ==> p in PutKeys(ks, ps, size)
    decreases |ps|
  {
    if ps == [] {
      assert ks + Elements(ps) == ks;
    } else {
      var ks' := if Extended(ks, ps[0], size) then ks else ks + {ps[0]};
      RebuiltKeys(ks', ps[1..], size, p);
      assert Elements(ps) == {ps[0]} + Elements(ps[1..]);
      if Outermost(ks + Elements(ps), p, size) && p == ps[0] {
        assert Extended(ks, p, size) ==> p in ks;
      }
    }
  }

  // ---------------------------------------------------------------- scanning a directory

  datatype DirEntry = Dir(name: string, entries: seq<DirEntry>) | File(name: string)

  datatype Pending = Pending(path: string, entries: seq<DirEntry>)

  predicate Skipped(e: DirEntry) {
    e.name == ".DS_Store" || (e.Dir? && (e.name == "." || e.name == ".."))
  }

  /** The paths of all files below a directory. */
  function FilesUnder(path: string, es: seq<DirEntry>): set<string>
    decreases es
  {
    if es == [] then {} else FilesOf(path, es[0]) + FilesUnder(path, es[1..])
  }

  function FilesOf(path: string, e: DirEntry): set<string>
    decreases e
  {
    var full := path + "/" + e.name;
    if Skipped(e) then {}
    else match e
      case Dir(_, es) => FilesUnder(full, es)
      case File(_) => {full}
  }

  /** The names lead from directory to directory down to a file. */
  ghost predicate LeadsTo(es: seq<DirEntry>, names: seq<string>)
    decreases |names|
  {
    names != [] && exists i :: 0 <= i < |es| && es[i].name == names[0] && TakesStep(es[i], names)
  }

  ghost predicate TakesStep(e: DirEntry, names: seq<string>)
    requires names != []
    decreases |names|, 0
  {
    && names[0] != ".DS_Store"
    && match e
       case File(_) => |names| == 1
       case Dir(_, es) => |names| > 1 && names[0] != "." && names[0] != ".." && LeadsTo(es, names[1..])
  }

  function Joined(path: string, names: seq<string>): string
    decreases |names|
  {
    if names == [] then path else Joined(path + "/" + names[0], names[1..])
  }

  /** A path is that of a file below the directory exactly if names that are not skipped lead
      down to it. */
  lemma {:induction false} FilesUnderIff(path: string, es: seq<DirEntry>, f: string)
    ensures f in FilesUnder(path, es) <==> exists names :: LeadsTo(es, names) && f == Joined(path, names)
    decreases es
  {
    if es != [] {
      FilesUnderIff(path, es[1..], f);
      FilesOfIff(path, es[0], f);
      forall names
        ensures LeadsTo(es, names) <==>
                names != [] && ((es[0].name == names[0] && TakesStep(es[0], names)) || LeadsTo(es[1..], names))
      {
        if LeadsTo(es[1..], names) {
          var i :| 0 <= i < |es[1..]| && es[1..][i].name == names[0] && TakesStep(es[1..][i], names);
          assert es[i + 1] == es[1..][i];
        }
        if LeadsTo(es, names) {
          var i :| 0 <= i < |es| && es[i].name == names[0] && TakesStep(es[i], names);
          if i > 0 {
            assert es[1..][i - 1] == es[i];
          }
        }
      }
    }
  }

  lemma {:induction false} FilesOfIff(path: string, e: DirEntry, f: string)
    ensures f in FilesOf(path, e) <==>
            exists names :: names != [] && e.name == names[0] && TakesStep(e, names) && f == Joined(path, names)
    decreases e
  {
    var full := path + "/" + e.name;
    match e
    case File(name) =>
      assert Joined(path, [name]) == Joined(full, []) == full;
      if f in FilesOf(path, e) {
        assert TakesStep(e, [name]);
      }
    case Dir(name, es) =>
      FilesUnderIff(full, es, f);
      if f in FilesOf(path, e) {
        var names :| LeadsTo(es, names) && f == Joined(full, names);
        assert ([name] + names)[1..] == names;
        assert TakesStep(e, [name] + names);
      }
      if names :| names != [] && name == names[0] && TakesStep(e, names) && f == Joined(path, names) {
        assert !Skipped(e) && LeadsTo(es, names[1..]) && f == Joined(full, names[1..]);
      }
  }

  function Size(es: seq<DirEntry>): nat
    decreases es
  {
    if es == [] then 0 else (match es[0] case Dir(_, sub) => 2 + Size(sub) case File(_) => 1) + Size(es[1..])
  }

  /** The number of directories on the stack and of entries below them. */
  function StackSize(stack: seq<Pending>): nat {
    if stack == [] then 0 else 1 + Size(stack[0].entries) + StackSize(stack[1..])
  }

  /** The files of one directory, in the order of its entries. */
  function FilesHere(path: string, es: seq<DirEntry>): seq<string> {
    if es == [] then []
    else (if es[0].Dir? || Skipped(es[0]) then [] else [path + "/" + es[0].name]) + FilesHere(path, es[1..])
  }

  /** The stack when its subdirectories have been pushed. */
  function Push(path: string, es: seq<DirEntry>, stack: seq<Pending>): seq<Pending>
    decreases |es|
  {
    if es == [] then stack
    else if es[0].Dir? && !Skipped(es[0]) then
      Push(path, es[1..], [Pending(path + "/" + es[0].name, es[0].entries)] + stack)
    else Push(path, es[1..], stack)
  }

  lemma {:induction false} PushSize(path: string, es: seq<DirEntry>, stack: seq<Pending>)
    ensures StackSize(Push(path, es, stack)) <= Size(es) + StackSize(stack)
    decreases |es|
  {
    if es != [] {
      if es[0].Dir? && !Skipped(es[0]) {
        var top := Pending(path + "/" + es[0].name, es[0].entries);
        assert ([top] + stack)[1..] == stack;
        PushSize(path, es[1..], [top] + stack);
      } else {
        PushSize(path, es[1..], stack);
      }
    }
  }

  /** The order in which the scan meets the files. */
  function Visit(stack: seq<Pending>): seq<string>
    decreases StackSize(stack)
  {
    if stack == [] then []
    else
      PushSize(stack[0].path, stack[0].entries, stack[1..]);
      FilesHere(stack[0].path, stack[0].entries) + Visit(Push(stack[0].path, stack[0].entries, stack[1..]))
  }

  ghost function FilesOnStack(stack: seq<Pending>): set<string> {
    if stack == [] then {} else FilesUnder(stack[0].path, stack[0].entries) + FilesOnStack(stack[1..])
  }

  lemma {:induction false} PushedFiles(path: string, es: seq<DirEntry>, stack: seq<Pending>)
    ensures (set p | p in FilesHere(path, es)) + FilesOnStack(Push(path, es, stack)) ==
            FilesUnder(path, es) + FilesOnStack(stack)
    decreases |es|
  {
    if es != [] {
      if es[0].Dir? && !Skipped(es[0]) {
        var top := Pending(path + "/" + es[0].name, es[0].entries);
        assert ([top] + stack)[1..] == stack;
        PushedFiles(path, es[1..], [top] + stack);
        assert FilesHere(path, es) == FilesHere(path, es[1..]);
        assert FilesOf(path, es[0]) == FilesUnder(top.path, top.entries);
        assert FilesOnStack([top] + stack) == FilesUnder(top.path, top.entries) + FilesOnStack(stack);
      } else {
        PushedFiles(path, es[1..], stack);
        var here, rest := FilesHere(path, es), FilesHere(path, es[1..]);
        if Skipped(es[0]) {
          assert here == rest && FilesOf(path, es[0]) == {};
        } else {
          var full := path + "/" + es[0].name;
          assert here == [full] + rest && FilesOf(path, es[0]) == {full};
          assert (set p | p in here) == {full} + (set p | p in rest);
        }
      }
    }
  }

  /** It meets exactly the files below the directory. */
  lemma {:induction false} VisitsAll(stack: seq<Pending>)
    ensures (set p | p in Visit(stack)) == FilesOnStack(stack)
    decreases StackSize(stack)
  {
    if stack != [] {
      var top, rest := stack[0], stack[1..];
      PushSize(top.path, top.entries, rest);
      PushedFiles(top.path, top.entries, rest);
      VisitsAll(Push(top.path, top.entries, rest));
    }
  }

  /** The same files by recursion: those of a directory in the order of its entries, then those
      below its subdirectories, the last subdirectory first. */
  function DepthFirst(path: string, es: seq<DirEntry>): seq<string>
    decreases es, 1
  {
    FilesHere(path, es) + BelowHere(path, es)
  }

  function BelowHere(path: string, es: seq<DirEntry>): seq<string>
    decreases es, 0
  {
    if es == [] then []
    else
      BelowHere(path, es[1..])
      + (if es[0].Dir? && !Skipped(es[0]) then DepthFirst(path + "/" + es[0].name, es[0].entries) else [])
  }

  /** The loop over the stack is that recursion. */
  lemma {:induction false} VisitIsDepthFirst(stack: seq<Pending>)
    requires stack != []
    ensures Visit(stack) == DepthFirst(stack[0].path, stack[0].entries) + Visit(stack[1..])
    decreases Size(stack[0].entries), 1
  {
    PushedVisit(stack[0].path, stack[0].entries, stack[1..]);
  }

  lemma {:induction false} PushedVisit(path: string, es: seq<DirEntry>, stack: seq<Pending>)
    ensures Visit(Push(path, es, stack)) == BelowHere(path, es) + Visit(stack)
    decreases Size(es), 0
  {
    hide Visit;
    if es != [] {
      if es[0].Dir? && !Skipped(es[0]) {
        var top := Pending(path + "/" + es[0].name, es[0].entries);
        PushedVisit(path, es[1..], [top] + stack);
        VisitIsDepthFirst([top] + stack);
        assert ([top] + stack)[1..] == stack;
      } else {
        PushedVisit(path, es[1..], stack);
      }
    }
  }

  // ---------------------------------------------------------------- entering what was met

  /** A path is entered, with the scanning node as its only holder, unless the search finds a
      node. */
  ghost function EnterPath(bs: Files, p: string, uuid: string): (r: Files)
    requires |bs| > 0
    ensures |r| == |bs|
  {
    var b := BucketOf(p, |bs|);
    if ChainGet(bs[b], p) == None then bs[b := ChainPut(bs[b], p, FileInfo(p, {uuid}))] else bs
  }

  ghost function EnterPaths(bs: Files, ps: seq<string>, uuid: string): (r: Files)
    requires |bs| > 0
    ensures |r| == |bs|
    decreases |ps|
  {
    if ps == [] then bs else EnterPaths(EnterPath(bs, ps[0], uuid), ps[1..], uuid)
  }

  /** The same on maps. */
  ghost function Enter(m: Index, p: string, uuid: string, size: nat): Index
    requires size > 0
  {
    if Extended(m.Keys, p, size) then m else m[p := FileInfo(p, {uuid})]
  }

  ghost function EnterAll(m: Index, ps: seq<string>, uuid: string, size: nat): Index
    requires size > 0
    decreases |ps|
  {
    if ps == [] then m else EnterAll(Enter(m, ps[0], uuid, size), ps[1..], uuid, size)
  }

  /** A path is entered exactly if no stored path of its bucket extends it. */
  lemma EnterPathModel(bs: Files, p: string, uuid: string)
    requires WellPlaced(bs)
    ensures WellPlaced(EnterPath(bs, p, uuid))
    ensures Model(EnterPath(bs, p, uuid)) == Enter(Model(bs), p, uuid, |bs|)
  {
    hide Model, FirstMatch, WellPlaced;
    FoundIffExtended(bs, p);
    PutKeepsPlaces(bs, p, FileInfo(p, {uuid}));
    PutUpdatesFirstMatch(bs, p, FileInfo(p, {uuid}));
    NotFound(bs, p);
  }

  lemma NotFound(bs: Files, p: string)
    requires |bs| > 0
    ensures ChainGet(Home(bs, p), p) == None ==> FirstMatch(Home(bs, p), p) == p
  {
  }

  lemma {:induction false} EnterPathsModel(bs: Files, ps: seq<string>, uuid: string)
    requires WellPlaced(bs)
    ensures WellPlaced(EnterPaths(bs, ps, uuid))
    ensures Model(EnterPaths(bs, ps, uuid)) == EnterAll(Model(bs), ps, uuid, |bs|)
    decreases |ps|
  {
    hide Model, EnterPath, Enter;
    if ps != [] {
      EnterPathModel(bs, ps[0], uuid);
      EnterPathsModel(EnterPath(bs, ps[0], uuid), ps[1..], uuid);
    }
  }

  /** Paths not yet listed are added with the scanning node as their only holder; listed paths
      stay as they are, even if learned from others. */
  ghost function Scanned(local: Index, paths: set<string>, uuid: string): Index {
    map p | p in local.Keys + paths :: if p in local then local[p] else FileInfo(p, {uuid})
  }

  /** No path is met that is extended, within its bucket, by a path listed or met before it;
      a path that is listed itself does not count. */
  ghost predicate NoneHidden(ks: set<string>, ps: seq<string>, size: nat)
    requires size > 0
    decreases |ps|
  {
    ps == [] || ((ps[0] in ks || !Extended(ks, ps[0], size)) && NoneHidden(ks + {ps[0]}, ps[1..], size))
  }

  function Elements(ps: seq<string>): set<string> {
    set p | p in ps
  }

  lemma {:induction false} EnterAllKeeps(m: Index, ps: seq<string>, uuid: string, size: nat)
    requires size > 0
    ensures var n := EnterAll(m, ps, uuid, size);
            && m.Keys <= n.Keys <= m.Keys + Elements(ps)
            && (forall p :: p in m ==> n[p] == m[p])
            && (forall p :: p in n && p !in m ==> n[p] == FileInfo(p, {uuid}))
    decreases |ps|
  {
    if ps != [] {
      assert ps[0] in m ==> Extended(m.Keys, ps[0], size);
      EnterAllKeeps(Enter(m, ps[0], uuid, size), ps[1..], uuid, size);
    }
  }

  lemma {:induction false} HiddenForEver(m: Index, p: string, ps: seq<string>, uuid: string, size: nat)
    requires size > 0 && Extended(m.Keys, p, size) && p !in m
    ensures p !in EnterAll(m, ps, uuid, size)
    decreases |ps|
  {
    if ps != [] {
      HiddenForEver(Enter(m, ps[0], uuid, size), p, ps[1..], uuid, size);
    }
  }

  lemma ScannedCons(m: Index, ps: seq<string>, uuid: string)
    requires ps != []
    ensures Scanned(m, Elements(ps), uuid) == Scanned(Scanned(m, {ps[0]}, uuid), Elements(ps[1..]), uuid)
    ensures Scanned(m, {ps[0]}, uuid) == if ps[0] in m then m else m[ps[0] := FileInfo(ps[0], {uuid})]
  {
    assert Elements(ps) == {ps[0]} + Elements(ps[1..]);
    SameMap(Scanned(m, Elements(ps), uuid), Scanned(Scanned(m, {ps[0]}, uuid), Elements(ps[1..]), uuid));
    SameMap(Scanned(m, {ps[0]}, uuid), if ps[0] in m then m else m[ps[0] := FileInfo(ps[0], {uuid})]);
  }

  lemma ScannedNothing(m: Index, uuid: string)
    ensures Scanned(m, Elements([]), uuid) == m
  {
    SameMap(Scanned(m, Elements([]), uuid), m);
  }

  /** The scan enters every path it meets exactly if none is hidden when it is met. */
  lemma {:induction false} EntersAllIff(m: Index, ps: seq<string>, uuid: string, size: nat)
    requires size > 0
    ensures EnterAll(m, ps, uuid, size) == Scanned(m, Elements(ps), uuid) <==> NoneHidden(m.Keys, ps, size)
    decreases |ps|
  {
    hide Scanned;
    if ps == [] {
      ScannedNothing(m, uuid);
    } else {
      var p := ps[0];
      var m' := Enter(m, p, uuid, size);
      ScannedCons(m, ps, uuid);
      if p in m {
        assert m.Keys + {p} == m.Keys;
        assert Extended(m.Keys, p, size);
        EntersAllIff(m', ps[1..], uuid, size);
      } else if Extended(m.Keys, p, size) {
        HiddenForEver(m', p, ps[1..], uuid, size);
        InScanned(m, p, Elements(ps), uuid);
      } else {
        assert m'.Keys == m.Keys + {p};
        EntersAllIff(m', ps[1..], uuid, size);
      }
    }
  }

  lemma InScanned(m: Index, p: string, ps: set<string>, uuid: string)
    ensures p in ps ==> p in Scanned(m, ps, uuid)
  {
  }

  lemma {:induction false} ApartNoneHidden(ks: set<string>, ps: seq<string>, size: nat)
    requires size > 0 && BucketApart(ks + Elements(ps), size)
    ensures NoneHidden(ks, ps, size)
    decreases |ps|
  {
    if ps != [] {
      assert Elements(ps) == {ps[0]} + Elements(ps[1..]);
      assert ks + {ps[0]} + Elements(ps[1..]) == ks + Elements(ps);
      ApartNoneHidden(ks + {ps[0]}, ps[1..], size);
    }
  }

  /** The part of the loop body of `list_files` that enters a file. */
  method EnterFile(files: HashTable<FileInfo>, path: string, uuid: string)
    requires files.Valid() && path != ""
    modifies files.buckets
    ensures files.Valid()
    ensures files.buckets[..] == EnterPath(old(files.buckets[..]), path, uuid)
  {
    var found := files.Get(path);
    if found == None {
      files.Put(path, FileInfo(path, {uuid}));
    }
  }

  /** `list_files`, for any names: the files below the directory are entered in the order in which
      the stack meets them, each unless a stored path of its bucket extends it; all of them are
      entered exactly if none is hidden so. */
  method ListFiles(path: string, entries: seq<DirEntry>, files: HashTable<FileInfo>, uuid: string)
    requires files.Valid()
    modifies files.buckets
    ensures files.Valid()
    ensures files.buckets[..] == EnterPaths(old(files.buckets[..]), Visit([Pending(path, entries)]), uuid)
    ensures var m, all := Model(old(files.buckets[..])), FilesUnder(path, entries);
            && (Model(files.buckets[..]) == Scanned(m, all, uuid) <==>
                NoneHidden(m.Keys, Visit([Pending(path, entries)]), files.buckets.Length))
            && (BucketApart(m.Keys + all, files.buckets.Length) ==> Model(files.buckets[..]) == Scanned(m, all, uuid))
  {
    ghost var was := files.buckets[..];
    assert |was| > 0;
    hide WellPlaced, Model, Scanned, EnterPaths, Visit, NoneHidden, BucketApart;
    var stack := [Pending(path, entries)];
    ghost var order := Visit(stack);
    while stack != []
      invariant files.Valid() && |files.buckets[..]| > 0
      invariant EnterPaths(files.buckets[..], Visit(stack), uuid) == EnterPaths(was, order, uuid)
      decreases StackSize(stack)
    {
      var top, rest := stack[0], stack[1..];
      VisitTop(stack);
      EntersThen(files.buckets[..], FilesHere(top.path, top.entries), Visit(Push(top.path, top.entries, rest)), uuid);
      stack := ListOne(top, rest, files, uuid);
    }
    EntersNone(files.buckets[..], uuid);
    ListedModel(was, path, entries, uuid);
  }

  lemma ListedModel(was: Files, path: string, entries: seq<DirEntry>, uuid: string)
    requires WellPlaced(was)
    ensures var m, all, order := Model(was), FilesUnder(path, entries), Visit([Pending(path, entries)]);
            && (Model(EnterPaths(was, order, uuid)) == Scanned(m, all, uuid) <==> NoneHidden(m.Keys, order, |was|))
            && (BucketApart(m.Keys + all, |was|) ==> Model(EnterPaths(was, order, uuid)) == Scanned(m, all, uuid))
  {
    hide Model, Scanned, EnterPaths, Visit, NoneHidden, BucketApart;
    var order := Visit([Pending(path, entries)]);
    VisitsAll([Pending(path, entries)]);
    assert Elements(order) == FilesUnder(path, entries);
    EnterPathsModel(was, order, uuid);
    EntersAllIff(Model(was), order, uuid, |was|);
    if BucketApart(Model(was).Keys + FilesUnder(path, entries), |was|) {
      ApartNoneHidden(Model(was).Keys, order, |was|);
    }
  }

  lemma VisitTop(stack: seq<Pending>)
    requires stack != []
    ensures var top := stack[0];
            Visit(stack) == FilesHere(top.path, top.entries) + Visit(Push(top.path, top.entries, stack[1..]))
    ensures StackSize(Push(stack[0].path, stack[0].entries, stack[1..])) < StackSize(stack)
    ensures Visit([]) == []
  {
    PushSize(stack[0].path, stack[0].entries, stack[1..]);
  }

  lemma EntersNone(bs: Files, uuid: string)
    requires |bs| > 0
    ensures EnterPaths(bs, Visit([]), uuid) == bs
  {
  }

  lemma {:induction false} EntersThen(bs: Files, ps: seq<string>, qs: seq<string>, uuid: string)
    requires |bs| > 0
    ensures EnterPaths(bs, ps + qs, uuid) == EnterPaths(EnterPaths(bs, ps, uuid), qs, uuid)
    decreases |ps|
  {
    hide EnterPath;
    if ps == [] {
      assert ps + qs == qs;
    } else {
      EntersThen(EnterPath(bs, ps[0], uuid), ps[1..], qs, uuid);
      assert (ps + qs)[1..] == ps[1..] + qs;
    }
  }

  /** The inner loop, over the entries of one directory. */
  method ListOne(top: Pending, rest: seq<Pending>, files: HashTable<FileInfo>, uuid: string)
      returns (stack: seq<Pending>)
    requires files.Valid()
    modifies files.buckets
    ensures files.Valid() && |files.buckets[..]| > 0
    ensures stack == Push(top.path, top.entries, rest)
    ensures files.buckets[..] == EnterPaths(old(files.buckets[..]), FilesHere(top.path, top.entries), uuid)
  {
    stack := rest;
    var es := top.entries;
    ghost var was := files.buckets[..];
    assert |was| > 0 && es[0..] == es;
    hide WellPlaced, EnterPath;
    for k := 0 to |es|
      invariant files.Valid() && |files.buckets[..]| > 0
      invariant Push(top.path, es[k..], stack) == Push(top.path, es, rest)
      invariant EnterPaths(files.buckets[..], FilesHere(top.path, es[k..]), uuid) ==
                EnterPaths(was, FilesHere(top.path, es), uuid)
    {
      var e := es[k];
      assert es[k..][1..] == es[k + 1..];
      FilesFrom(top.path, es, k);
      if !Skipped(e) {
        var full := top.path + "/" + e.name;
        if e.Dir? {
          stack := [Pending(full, e.entries)] + stack;
        } else {
          EnterFile(files, full, uuid);
        }
      }
    }
  }

  lemma FilesFrom(path: string, es: seq<DirEntry>, k: nat)
    requires k < |es|
    ensures var rest := FilesHere(path, es[k + 1..]);
            if es[k].Dir? || Skipped(es[k]) then FilesHere(path, es[k..]) == rest
            else FilesHere(path, es[k..]) == [path + "/" + es[k].name] + rest
                 && ([path + "/" + es[k].name] + rest)[1..] == rest
  {
    assert es[k..][1..] == es[k + 1..];
  }
}
