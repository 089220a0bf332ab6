/**
 The advertisement on the wire: a configuration becomes a cJSON tree and text on one side, and
 the text becomes a configuration again on the other (conf_utils.c).
 */
module Wire {
  import opened Wrappers
  import opened CStrings
  import opened CJsonStrings
  import opened CJsonNumbers
  import opened CJson
  import opened CJsonLookup
  import opened CJsonRoundTrip
  import opened PeerTables
  import opened LinkState
  import ParseBuffers
  import PrintBuffers

  // ---------------------------------------------------------------- the tree

  /** A sender's configuration and what else goes into its advertisement: `files` is the tree
      of its file index, if it has one. */
  datatype Sent = Sent(self: Peer, contentDir: string, table: Table,
                       lastSeen: string, peerSeen: seq<string>, files: Option<Json>)

  function Whole(n: int): Json {
    Number(Saturated(n as real), n as real)
  }

  function PeerMembers(p: Peer, seen: string): seq<Member> {
    [
      Member("uuid", Str(p.uuid)), Member("last_seen", Str(seen)),
      Member("name", Str(p.name)), Member("host", Str(p.host)),
      Member("frontend_port", Whole(p.frontendPort)), Member("backend_port", Whole(p.backendPort)),
      Member("weight", Whole(p.weight))
    ]
  }

  function PeerJson(p: Peer, seen: string): Json {
    Object(PeerMembers(p, seen))
  }

  function PeersJson(t: Table, seen: seq<string>): seq<Json>
    requires |seen| == |t|
  {
    seq(|t|, i requires 0 <= i < |t| => PeerJson(t[i], seen[i]))
  }

  function ConfigMembers(m: Sent): seq<Member>
    requires |m.peerSeen| == |m.table|
  {
    [
      Member("uuid", Str(m.self.uuid)), Member("last_seen", Str(m.lastSeen)), Member("name", Str(m.self.name)),
      Member("frontend_port", Whole(m.self.frontendPort)), Member("backend_port", Whole(m.self.backendPort)),
      Member("content_dir", Str(m.contentDir)), Member("peer_count", Whole(|m.table|)),
      Member("peers", Array(PeersJson(m.table, m.peerSeen)))
    ]
  }

  function ConfigJson(m: Sent): Json
    requires |m.peerSeen| == |m.table|
  {
    Object(ConfigMembers(m) + (if m.files.Some? then [Member("file_map", m.files.value)] else []))
  }

  // ---------------------------------------------------------------- reading it back

  /** A field that is copied if it holds a string, and else stays as it was. */
  predicate TextRead(v: Json, name: string, got: string) {
    var x := Field(v, name);
    x.Some? && x.value.Str? ==> got == x.value.s
  }

  /** `valueint` of a parsed item. */
  function ValueInt(v: Json): int {
    match v
    case Number(n, _) => n
    case Bool(true) => 1
    case _ => 0
  }

  predicate NumberRead(v: Json, name: string, got: int) {
    var x := Field(v, name);
    x.Some? ==> got == ValueInt(x.value)
  }

  predicate PeerRead(v: Json, p: Peer) {
    && TextRead(v, "uuid", p.uuid) && TextRead(v, "name", p.name) && TextRead(v, "host", p.host)
    && NumberRead(v, "frontend_port", p.frontendPort) && NumberRead(v, "backend_port", p.backendPort)
    && NumberRead(v, "weight", p.weight)
  }

  /** The children of the `peers` field. */
  function PeerItems(root: Json): seq<Json> {
    var x := Field(root, "peers");
    if x.Some? then Children(x.value) else []
  }

  ghost predicate HeadRead(root: Json, c: NodeConfig)
    reads c
  {
    && TextRead(root, "uuid", c.uuid) && TextRead(root, "name", c.name)
    && NumberRead(root, "frontend_port", c.frontendPort) && NumberRead(root, "backend_port", c.backendPort)
    && TextRead(root, "content_dir", c.contentDir) && NumberRead(root, "peer_count", c.peerCount)
  }

  predicate PeersRead(items: seq<Json>, peers: seq<Peer>) {
    |items| <= |peers| && forall i :: 0 <= i < |items| ==> PeerRead(items[i], peers[i])
  }

  method ReadText(v: Json, name: string, was: string) returns (got: string)
    ensures TextRead(v, name, got)
  {
    var x := GetObjectItem(v, name, false);
    got := if x.Some? && x.value.Str? then x.value.s else was;
  }

  method ReadNumber(v: Json, name: string, was: int) returns (got: int)
    ensures NumberRead(v, name, got)
  {
    var x := GetObjectItem(v, name, false);
    got := if x.Some? then ValueInt(x.value) else was;
  }

  method ReadPeer(v: Json, was: Peer) returns (p: Peer)
    ensures PeerRead(v, p)
  {
    hide TextRead, NumberRead;
    var uuid := ReadText(v, "uuid", was.uuid);
    var name := ReadText(v, "name", was.name);
    var host := ReadText(v, "host", was.host);
    var frontendPort := ReadNumber(v, "frontend_port", was.frontendPort);
    var backendPort := ReadNumber(v, "backend_port", was.backendPort);
    var weight := ReadNumber(v, "weight", was.weight);
    p := Peer(uuid, name, host, frontendPort, backendPort, weight);
  }

  /** `json_to_node_config`: refused are text that does not parse and more than 50 peers. The
      count comes from the text and is not compared with the peers read. */
  method JsonToNodeConfig(text: string) returns (c: NodeConfig?)
    ensures c == null <==> Parse(text).Failed? || |PeerItems(Parse(text).value)| > MAX_PEERS
    ensures c != null ==>
              && fresh(c) && fresh(c.peers) && c.peers.Length == MAX_PEERS
              && HeadRead(Parse(text).value, c) && PeersRead(PeerItems(Parse(text).value), c.peers[..])
  {
    hide Parse, TextRead, NumberRead, PeerRead, Get;
    var ok, root, _ := ParseBuffers.ParseText(text);
    if !ok {
      return null;
    }
    c := new NodeConfig.Allocated();
    ReadHead(root, c);
    var peers := GetObjectItem(root, "peers", false);
    if peers.Some? {
      var items := Children(peers.value);
      if |items| > MAX_PEERS {
        return null;
      }
      for i := 0 to |items|
        invariant HeadRead(root, c)
        invariant forall k :: 0 <= k < i ==> PeerRead(items[k], c.peers[k])
      {
        c.peers[i] := ReadPeer(items[i], c.peers[i]);
      }
    }
  }

  method ReadHead(root: Json, c: NodeConfig)
    modifies c
    ensures HeadRead(root, c)
  {
    hide TextRead, NumberRead;
    c.uuid := ReadText(root, "uuid", c.uuid);
    c.name := ReadText(root, "name", c.name);
    c.frontendPort := ReadNumber(root, "frontend_port", c.frontendPort);
    c.backendPort := ReadNumber(root, "backend_port", c.backendPort);
    c.contentDir := ReadText(root, "content_dir", c.contentDir);
    c.peerCount := ReadNumber(root, "peer_count", c.peerCount);
  }

  // ---------------------------------------------------------------- writing it

  predicate InRange(n: int) {
    INT_MIN <= n <= INT_MAX
  }

  predicate PeerSendable(p: Peer) {
    && NulFree(p.uuid) && NulFree(p.name) && NulFree(p.host)
    && InRange(p.frontendPort) && InRange(p.backendPort) && InRange(p.weight)
  }

  /** C strings and numbers in the range of `int`, and at most 50 peers. */
  predicate Sendable(m: Sent) {
    && PeerSendable(m.self) && NulFree(m.contentDir) && NulFree(m.lastSeen)
    && |m.peerSeen| == |m.table| <= MAX_PEERS
    && (forall i :: 0 <= i < |m.table| ==> PeerSendable(m.table[i]))
    && (forall i :: 0 <= i < |m.table| ==> NulFree(m.peerSeen[i]))
    && (m.files.Some? ==> Printable(m.files.value))
  }

  /** The loop of `node_config_to_json`. */
  method PeersToJson(c: NodeConfig, peerSeen: seq<string>) returns (items: seq<Json>)
    requires c.Valid() && |peerSeen| == c.peerCount
    ensures items == PeersJson(c.Table(), peerSeen)
  {
    hide PeerJson;
    items := [];
    for i := 0 to c.peerCount
      invariant items == PeersJson(c.Table(), peerSeen)[..i]
    {
      var peer := PeerToJson(c.peers[i], peerSeen[i]);
      items := items + [peer];
      assert PeersJson(c.Table(), peerSeen)[i] == PeerJson(c.peers[i], peerSeen[i]);
    }
  }

  method PeerToJson(p: Peer, seen: string) returns (v: Json)
    ensures v == PeerJson(p, seen)
  {
    var ms := [Member("uuid", Str(p.uuid))];
    ms := ms + [Member("last_seen", Str(seen))];
    ms := ms + [Member("name", Str(p.name))];
    ms := ms + [Member("host", Str(p.host))];
    ms := ms + [Member("frontend_port", Whole(p.frontendPort))];
    ms := ms + [Member("backend_port", Whole(p.backendPort))];
    ms := ms + [Member("weight", Whole(p.weight))];
    v := Object(ms);
  }

  /** What `node_config_to_json` is given. */
  ghost function Outgoing(c: NodeConfig, lastSeen: string, peerSeen: seq<string>, files: Option<Json>): Sent
    requires c.Valid()
    reads c, c.peers
  {
    Sent(c.AsPeer(0), c.contentDir, c.Table(), lastSeen, peerSeen, files)
  }

  /** `node_config_to_json`; no text where the printer runs past INT_MAX. */
  method NodeConfigToJson(c: NodeConfig, formatted: bool, lastSeen: string, peerSeen: seq<string>, files: Option<Json>)
      returns (text: Option<string>)
    requires c.Valid() && Sendable(Outgoing(c, lastSeen, peerSeen, files))
    ensures var tree := ConfigJson(Outgoing(c, lastSeen, peerSeen, files));
            && (text.Some? ==> text.value == Print(tree, formatted, 0))
            && (|Print(tree, formatted, 0)| + 2 <= INT_MAX ==> text.Some?)
  {
    hide Print, Printable, PeersJson;
    ghost var m := Outgoing(c, lastSeen, peerSeen, files);
    var peers := PeersToJson(c, peerSeen);
    var ms := [Member("uuid", Str(c.uuid))];
    ms := ms + [Member("last_seen", Str(lastSeen))];
    ms := ms + [Member("name", Str(c.name))];
    ms := ms + [Member("frontend_port", Whole(c.frontendPort))];
    ms := ms + [Member("backend_port", Whole(c.backendPort))];
    ms := ms + [Member("content_dir", Str(c.contentDir))];
    ms := ms + [Member("peer_count", Whole(c.peerCount))];
    ms := ms + [Member("peers", Array(peers))];
    if files.Some? {
      ms := ms + [Member("file_map", files.value)];
    }
    assert Object(ms) == ConfigJson(m);
    ConfigPrintable(m);
    var ok, printed := PrintBuffers.PrintText(Object(ms), formatted);
    text := if ok then Some(printed) else None;
  }

  lemma WholeOf(n: int)
    requires InRange(n)
    ensures Whole(n) == Number(n, n as real) && Printable(Whole(n))
  {
  }

  lemma {:induction false} AllPrintable(ms: seq<Member>)
    requires forall i :: 0 <= i < |ms| ==> NulFree(ms[i].key) && Printable(ms[i].value)
    ensures PrintableMembers(ms)
  {
    hide Printable;
    if ms != [] {
      AllPrintable(ms[1..]);
    }
  }

  lemma {:induction false} AllItemsPrintable(items: seq<Json>)
    requires forall i :: 0 <= i < |items| ==> Printable(items[i])
    ensures PrintableItems(items)
  {
    hide Printable;
    if items != [] {
      AllItemsPrintable(items[1..]);
    }
  }

  lemma PeerPrintable(p: Peer, seen: string)
    requires PeerSendable(p) && NulFree(seen)
    ensures Printable(PeerJson(p, seen))
  {
    WholeOf(p.frontendPort);
    WholeOf(p.backendPort);
    WholeOf(p.weight);
    assert NulFree("uuid") && NulFree("last_seen") && NulFree("name") && NulFree("host");
    assert NulFree("frontend_port") && NulFree("backend_port") && NulFree("weight");
    hide Whole, NulFree;
    AllPrintable(PeerMembers(p, seen));
  }

  lemma PeersPrintable(m: Sent)
    requires Sendable(m)
    ensures Printable(Array(PeersJson(m.table, m.peerSeen)))
  {
    hide PeerJson;
    forall i | 0 <= i < |m.table|
      ensures Printable(PeersJson(m.table, m.peerSeen)[i])
    {
      PeerPrintable(m.table[i], m.peerSeen[i]);
    }
    AllItemsPrintable(PeersJson(m.table, m.peerSeen));
  }

  lemma FieldsPrintable(m: Sent)
    requires Sendable(m)
    ensures forall i :: 0 <= i < |ConfigMembers(m)| ==> Printable(ConfigMembers(m)[i].value)
  {
    hide Whole, PeersJson, PrintableItems;
    WholeOf(m.self.frontendPort);
    WholeOf(m.self.backendPort);
    WholeOf(|m.table|);
    PeersPrintable(m);
  }

  lemma ConfigPrintable(m: Sent)
    requires Sendable(m)
    ensures Printable(ConfigJson(m))
  {
    hide Whole, PeersJson, PrintableItems;
    var ms := ConfigJson(m).members;
    forall i | 0 <= i < |ms|
      ensures Printable(ms[i].value)
    {
      hide ConfigMembers, Printable;
      FieldsPrintable(m);
      if i < |ConfigMembers(m)| {
        assert ms[i] == ConfigMembers(m)[i];
      }
    }
    KeysNulFree(m);
    hide Printable, NulFree;
    AllPrintable(ms);
    PrintableObject(ms);
  }

  lemma KeysNulFree(m: Sent)
    requires |m.peerSeen| == |m.table|
    ensures var ms := ConfigJson(m).members; forall i :: 0 <= i < |ms| ==> NulFree(ms[i].key)
  {
    hide Whole, PeersJson;
    assert NulFree("uuid") && NulFree("last_seen") && NulFree("name") && NulFree("frontend_port");
    assert NulFree("backend_port") && NulFree("content_dir") && NulFree("peer_count") && NulFree("peers");
    assert NulFree("file_map");
    hide NulFree;
  }

  lemma PrintableObject(ms: seq<Member>)
    requires PrintableMembers(ms)
    ensures Printable(Object(ms))
  {
  }

  lemma {:induction false} NestingAtMost(ms: seq<Member>, n: nat)
    requires forall i :: 0 <= i < |ms| ==> Nesting(ms[i].value) <= n
    ensures NestingMembers(ms) <= n
  {
    hide Nesting;
    if ms != [] {
      NestingAtMost(ms[1..], n);
    }
  }

  lemma {:induction false} NestingAtLeast(ms: seq<Member>, i: nat)
    requires i < |ms|
    ensures Nesting(ms[i].value) <= NestingMembers(ms)
  {
    hide Nesting;
    if i > 0 {
      NestingAtLeast(ms[1..], i - 1);
    }
  }

  lemma {:induction false} ItemsNestingAtMost(items: seq<Json>, n: nat)
    requires forall i :: 0 <= i < |items| ==> Nesting(items[i]) <= n
    ensures NestingItems(items) <= n
  {
    hide Nesting;
    if items != [] {
      ItemsNestingAtMost(items[1..], n);
    }
  }

  lemma PeerNesting(p: Peer, seen: string)
    ensures Nesting(PeerJson(p, seen)) <= 1
  {
    NestingAtMost(PeerMembers(p, seen), 0);
  }

  /** The tree is as deep as its file index and one more, but at least as the peers make it. */
  lemma ConfigNesting(m: Sent)
    requires |m.peerSeen| == |m.table|
    ensures var files := if m.files.Some? then Nesting(m.files.value) else 0;
            files < Nesting(ConfigJson(m)) <= 1 + Max(2, files)
  {
    hide PeerJson;
    var files := if m.files.Some? then Nesting(m.files.value) else 0;
    forall i | 0 <= i < |m.table|
      ensures Nesting(PeersJson(m.table, m.peerSeen)[i]) <= 1
    {
      PeerNesting(m.table[i], m.peerSeen[i]);
    }
    ItemsNestingAtMost(PeersJson(m.table, m.peerSeen), 1);
    var ms := ConfigJson(m).members;
    NestingAtMost(ms, Max(2, files));
    NestingAtLeast(ms, |ms| - 1);
  }

  // ---------------------------------------------------------------- what survives

  lemma PeerFields(p: Peer, seen: string)
    ensures var v := PeerJson(p, seen);
            && Field(v, "uuid") == Some(Str(p.uuid)) && Field(v, "last_seen") == Some(Str(seen))
            && Field(v, "name") == Some(Str(p.name))
            && Field(v, "host") == Some(Str(p.host))
            && Field(v, "frontend_port") == Some(Whole(p.frontendPort))
            && Field(v, "backend_port") == Some(Whole(p.backendPort))
            && Field(v, "weight") == Some(Whole(p.weight))
  {
    hide Lower, Whole, Field, Get;
    var ms := PeerMembers(p, seen);
    KeysApart("uuid", "name");
    KeysApart("uuid", "host");
    KeysApart("name", "host");
    forall i, j | 0 <= j < i < 7 && |ms[j].key| != |ms[i].key|
      ensures Lower(ms[j].key) != Lower(ms[i].key)
    {
      KeysApart(ms[j].key, ms[i].key);
    }
    FieldAt(ms, 0);
    FieldAt(ms, 1);
    FieldAt(ms, 2);
    FieldAt(ms, 3);
    FieldAt(ms, 4);
    FieldAt(ms, 5);
    FieldAt(ms, 6);
  }

  lemma ConfigFields(m: Sent)
    requires |m.peerSeen| == |m.table|
    ensures var v := ConfigJson(m);
            && Field(v, "uuid") == Some(Str(m.self.uuid)) && Field(v, "last_seen") == Some(Str(m.lastSeen))
            && Field(v, "name") == Some(Str(m.self.name))
            && Field(v, "frontend_port") == Some(Whole(m.self.frontendPort))
            && Field(v, "backend_port") == Some(Whole(m.self.backendPort))
            && Field(v, "content_dir") == Some(Str(m.contentDir))
            && Field(v, "peer_count") == Some(Whole(|m.table|))
            && Field(v, "peers") == Some(Array(PeersJson(m.table, m.peerSeen)))
            && Field(v, "file_map") == m.files
  {
    hide Lower, Whole, Field, Get, PeersJson;
    var ms := ConfigJson(m).members;
    KeysApart("uuid", "name");
    forall i, j | 0 <= j < i < 8 && |ms[j].key| != |ms[i].key|
      ensures Lower(ms[j].key) != Lower(ms[i].key)
    {
      KeysApart(ms[j].key, ms[i].key);
    }
    FieldAt(ms, 0);
    FieldAt(ms, 1);
    FieldAt(ms, 2);
    FieldAt(ms, 3);
    FieldAt(ms, 4);
    FieldAt(ms, 5);
    FieldAt(ms, 6);
    FieldAt(ms, 7);
    FilesField(m);
  }

  lemma FilesField(m: Sent)
    requires |m.peerSeen| == |m.table|
    ensures Field(ConfigJson(m), "file_map") == m.files
  {
    hide Lower, Whole, PeersJson;
    var ms := ConfigJson(m).members;
    forall i | 0 <= i < 8
      ensures Lower(ms[i].key) != Lower("file_map")
    {
      KeysApart(ms[i].key, "file_map");
    }
    hide Field;
    if m.files.Some? {
      FieldAt(ms, 8);
    } else {
      NoField(ms, "file_map");
    }
  }

  lemma PeerReadBack(p: Peer, seen: string, q: Peer)
    requires PeerSendable(p) && PeerRead(PeerJson(p, seen), q)
    ensures q == p
  {
    hide PeerJson, Field;
    PeerFields(p, seen);
    WholeOf(p.frontendPort);
    WholeOf(p.backendPort);
    WholeOf(p.weight);
  }

  lemma PeersReadBack(m: Sent, peers: seq<Peer>)
    requires Sendable(m) && PeersRead(PeersJson(m.table, m.peerSeen), peers)
    ensures |m.table| <= |peers| && peers[..|m.table|] == m.table
  {
    hide PeerJson, PeerRead;
    forall i | 0 <= i < |m.table|
      ensures peers[i] == m.table[i]
    {
      assert PeersJson(m.table, m.peerSeen)[i] == PeerJson(m.table[i], m.peerSeen[i]);
      PeerReadBack(m.table[i], m.peerSeen[i], peers[i]);
    }
  }

  /** Both halves of the wire format agree: what is read from the tree of a configuration is
      the configuration, its peers in order. */
  lemma ConfigReadBack(m: Sent, c: NodeConfig)
    requires Sendable(m) && HeadRead(ConfigJson(m), c)
    requires c.peers.Length == MAX_PEERS && PeersRead(PeerItems(ConfigJson(m)), c.peers[..])
    ensures c.Valid() && c.Table() == m.table
    ensures c.AsPeer(0) == m.self.(host := c.host, weight := 0) && c.contentDir == m.contentDir
  {
    hide ConfigJson, Field, PeersJson, PeerRead;
    ConfigFields(m);
    WholeOf(m.self.frontendPort);
    WholeOf(m.self.backendPort);
    WholeOf(|m.table|);
    PeersReadBack(m, c.peers[..]);
    assert c.peers[..c.peerCount] == c.peers[..][..|m.table|];
  }
}
