# Verified model of the peer-to-peer video server (hw4)

The program is a network of HTTP servers that find each other by exchanging routing
advertisements, index each other's files, and fetch file ranges from each other over UDP. This
project models its protocols and the data structures they stand on, and proves what they keep
over all inputs and all runs. The models follow the code, also where it departs from what its
comments or names say.

**Routing.** `HashTable` (the chained table), `PeerTable` (what one advertisement does to a peer
array, and the pure relaxation it amounts to), `LinkState` (the handlers, writing in place),
`Walks` (paths and distances), `Network` (many nodes; snapshots may be lost, delayed, repeated and
reordered, neighbours may be added at any time), `Optimality`, `Convergence`, `FairRun` (fair runs
exist), and `OneSidedLink` (a run that rests on a wrong distance). The repository calls the protocol
link-state; what the code runs is asynchronous distance-vector routing. The runs of `Network`,
`Optimality` and `Convergence` describe the code where no uuid is a prefix of another, as `Advertise`
and the handlers say; their rows below are to be read so.

**On the wire.** `Wire` (a configuration as a JSON tree and back) and `Advertisement` (one whole
exchange from the sender's array to the receiver's: print, parse, take in; the result is the
delivery step of `Network`).

**File index.** `FileIndex` (scanning a directory, learning from a peer's file map) and `Gossip`
(runs of many nodes). Paths do extend each other: `content/img6` and `content/img62` fall into one
bucket, and the hash table takes one for the other. The results hold for any paths, and say what is
added where no path extends another one of its bucket.

**Transfers.** `Packets` (the server's answer to one request), `StopAndWait` (the stand-alone client
against the stateless server over a network that loses, duplicates and reorders), `LiveTransfer`
and `LiveRuns` (the packet that travels back and forth for one view request).

**cJSON.** `CJsonStrings`, `CJsonNumbers`, `CJson` (trees, printing and parsing as functions),
`CJsonRoundTrip`, `CJsonSpelling`, `CJsonDecimal`, `CJsonDocument` and `CJsonConformance` (reading and
printing told apart, each against the grammar of RFC 8259), `ParseBuffer` and `PrintBuffer` (the same as the C code runs it, moving offsets and
filling buffers), `CJsonLookup`, `SiblingList` (the doubly linked children), and of cJSON_Utils
`MergeSort`, `MergePatch`, `MergePatchLoops`, `JsonPointer` and `JsonPointerLoops`.

Where the code does not do what one would expect, the exact condition is proved:

- the hash table stores and deletes at the first key that extends the given one, which is the given
  key if and only if no such key stands before it (`PutUpdatesFirstMatch`, `PutIsUpdateIff`,
  `DeleteIsRemoval`); overwriting is a map update if and only if no other key of the chain extends the
  given one (`OverwriteIsUpdate`);
- a scan enters every file it meets if and only if none is extended, in its bucket, by a path listed
  before (`EntersAllIff`); holders know the very path they are named for, in all runs over a set of
  paths, if and only if no path of the set extends another one of its bucket (`HoldersExactIff`); on
  such paths a node can be listed as holder of a file it never found if and only if some node knows the
  path and some node has not found it (`MisnamedIff`);
- a fair network always comes to rest, and is then optimal if and only if both ends of every link value
  it (`ComesToRest`, `QuiescentOptimalIff`);
- a download can end on file data if and only if the size is no multiple of 1024 (`CompletionIff`);
- printed JSON is read back if and only if it is nested at most 1000 deep (`PrintParse`); so is every
  text of the grammar (`DocumentRead`), and what is printed is such a text (`PrintConforms`);
- appending to a child list gives a list if and only if it was empty or the new item's `next` was NULL
  (`AddItemToArray`); sorting an object leaves a child list if and only if its first key goes strictly
  before and its last key strictly after all others (`SortObject`);
- a merge patch restores its target if and only if each null in it was there before
  (`PatchRoundTrip`), and does so on every null-free tree over a set of keys if and only if those keys
  are ordered alike with and without regard to case (`InsensitiveIff`; for the case-sensitive calls,
  only keys below the top matter, `SensitiveIff`);
- a JSON pointer leads back to its node if and only if no elder sibling shadows a key on the way
  (`FindThenResolve`).

## Model

| member | source | states |
|---|---|---|
| HashTables.HashTable.constructor | hw4/src/hmap_utils.c:35-43 | a new table has the given number of empty buckets |
| HashTables.HashFunc | hw4/src/hmap_utils.c:21-32 | the wrapping unsigned accumulator computes the polynomial in 31 over signed bytes modulo 2^32, reduced to the table size |
| HashTables.FindIsExactIff | hw4/src/hmap_utils.c:52-59 | a search by `memcmp` over `strlen(key)` bytes finds the key's own node if and only if no node that extends the key stands before it |
| HashTables.PutUpdatesFirstMatch | hw4/src/hmap_utils.c:46-97 | whatever the keys, storing changes the table, seen as a map, exactly at the first stored key that extends the given one, or at the given key if there is none |
| HashTables.PutIsUpdateIff | hw4/src/hmap_utils.c:46-97 | storing each of two different values is a map update at the given key if and only if the key is not shadowed |
| HashTables.PutIsUpdate | hw4/src/hmap_utils.c:46-97 | storing at a key that is not shadowed changes the table, seen as a map, at that key and nowhere else |
| HashTables.PutThenGet | hw4/src/hmap_utils.c:46-113 | every lookup after a put, whatever the keys: where no stored key of the bucket extends the given one, every key that it extends there is looked up as the new value, and where one does, exactly the keys whose search stopped at that node are; every other lookup is unchanged |
| HashTables.PutKeepsPlaces | hw4/src/hmap_utils.c:46-97 | storing keeps every node in the bucket of its hash and adds no second node for a key |
| HashTables.GetFindsFirstMatch | hw4/src/hmap_utils.c:99-113 | whatever the keys, what is returned is the map's value at the first match |
| HashTables.GetIsLookup | hw4/src/hmap_utils.c:99-113 | a key that is not shadowed is looked up as in the map |
| HashTables.DeleteRemovesFirstMatch | hw4/src/hmap_utils.c:116-136 | whatever the keys, deleting removes exactly the first match from the map |
| HashTables.DeleteIsRemoval | hw4/src/hmap_utils.c:116-136 | deleting removes exactly the given key from the map if and only if the key is not shadowed |
| HashTables.DeleteKeepsPlaces | hw4/src/hmap_utils.c:116-136 | deleting keeps every node in its bucket and brings in no key |
| HashTables.PrefixFreeNotShadowed | hw4/src/hmap_utils.c:52-59 | on a prefix-free key set no key is ever shadowed, so the table is a map |
| HashTables.PrefixFreeApart | hw4/src/hmap_utils.c:52-59 | in a prefix-free set no key extends another one of its bucket, for any table size |
| HashTables.FoundIffExtended | hw4/src/hmap_utils.c:99-113 | a search finds something if and only if a stored key of the bucket extends the given one |
| HashTables.PrefixOverwrites | hw4/src/hmap_utils.c:52-59 | an instance: storing at `1-2` overwrites the value of `1-2-3` and stores no entry of its own |
| HashTables.HashTable.Put | hw4/src/hmap_utils.c:46-97 | the loop over the chain has the effect of the chain update in one bucket, and of a map update at the first match, which is the key itself if it is not shadowed |
| HashTables.HashTable.Get | hw4/src/hmap_utils.c:99-113 | the loop returns the first match of the chain, which is the map's value of the key if it is not shadowed |
| HashTables.HashTable.Delete | hw4/src/hmap_utils.c:116-136 | the loop takes the first match out of the chain and the map, which is the key itself if and only if it is not shadowed |
| HashTables.OverwriteIsUpdate | hw4/src/conf_utils.c:819-831 | delete-if-present then put is one map overwrite if and only if no other key of the chain extends the given one; where one stands behind it, the key is deleted and the value goes there |
| HashTables.OverwriteModel | hw4/src/conf_utils.c:819-831 | whatever the keys, the first match is taken out of the map and the value stored at the next match |
| HashTables.UpdateNetworkMap | hw4/src/conf_utils.c:819-831 | the network map is overwritten at one uuid and unchanged elsewhere if and only if no other uuid of its chain extends it, as on prefix-free uuids |
| PeerTables.WeightsByIndex | hw4/src/conf_utils.c:731-738 | the map of a peer array holds exactly what the scan by uuid finds first |
| PeerTables.AdvertMeaning | hw4/src/conf_utils.c:647-689 | the table built from a sender's array holds the sender itself and each listed uuid once, with its first record and its least weight |
| PeerTables.AdvertOfDistinct | hw4/src/conf_utils.c:647-689 | a duplicate-free array is advertised as it stands, with its owner at weight zero |
| PeerTables.AbsorbOne | hw4/src/conf_utils.c:775-808 | one advertised entry relaxes exactly its own uuid: never the receiver, never an already listed sender; places and records stay, no weight rises |
| PeerTables.RelaxCompose | hw4/src/conf_utils.c:764-808 | two advertisements about different uuids, taken in one after the other, are one relaxation by both |
| PeerTables.ChainRelaxes | hw4/src/conf_utils.c:770-808 | the loop over one chain relaxes by what the chain holds, or by part of it where the array runs full |
| PeerTables.BucketsRelax | hw4/src/conf_utils.c:764-808 | whatever the order of buckets and chains, all loops together are one relaxation; exact where every advertised uuid fits |
| PeerTables.ExactIffFits | hw4/src/conf_utils.c:764-808 | the outcome is the full relaxation if and only if every advertised uuid fits the array |
| PeerTables.NewRecords | hw4/src/conf_utils.c:781-796 | every new entry carries the uuid, name, host and ports advertised under its uuid, whatever the bucket order |
| PeerTables.ModelWeights | hw4/src/conf_utils.c:764-770 | the weights met on the walk over all buckets are the weights of the table as a map |
| LinkState.NodeConfig.FindPeer | hw4/src/conf_utils.c:772-777 | the scan returns the place of the first entry with that uuid |
| LinkState.NodeConfig.AddPeer | hw4/src/conf_utils.c:375-411 | a full array or a listed uuid is refused and nothing changes; else the neighbour is appended, the array stays duplicate-free, and the map gains one entry |
| LinkState.NodeConfigToHashmap | hw4/src/conf_utils.c:647-689 | on prefix-free uuids the table built in place is the advertisement of the sender's array |
| LinkState.UpdatePeerWeights | hw4/src/conf_utils.c:740-809 | the nested loops compute the specified walk over buckets, with the sender's cost from the receiver's own entry or, if that is zero, from the sender's entry for the receiver |
| LinkState.AbsorbOneChain | hw4/src/conf_utils.c:768-808 | one chain is absorbed entry by entry until the array is full |
| LinkState.AbsorbOnePeer | hw4/src/conf_utils.c:772-806 | one entry is skipped, appended, lowered or left, and a full array breaks the loop |
| LinkState.SenderWeight | hw4/src/conf_utils.c:747-762 | the sender costs what the receiver lists for it, or, if that is zero or missing, what the advertisement lists for the receiver |
| LinkState.GivenIsGiven | hw4/src/conf_utils.c:745-762 | the cost of reaching the sender depends only on the two maps |
| PeerTables.SenderCost | hw4/src/conf_utils.c:745-762 | a sender listed at weight zero costs what it would cost if it were not listed, namely its own entry for the receiver; at any other weight the receiver's entry decides |
| LinkState.ReceiveAdvertisement | hw4/src/main.c:521-636 | one received advertisement refines pure relaxation on maps: `min(old, given + advertised)` for every uuid but the receiver and a listed sender; entries keep their place, uuids stay distinct, no weight rises, and a new entry carries the record advertised under its uuid; the relaxation is complete if and only if every advertised uuid fits |
| Network.HandlerDelivers | hw4/src/main.c:521-636 | the handler's outcome on the array is the network model's delivery of the sender's table |
| Network.GivenSound | hw4/src/conf_utils.c:745-762 | the cost assumed for the sender is the length of a walk; the reverse-weight fallback is sound because a sender lists whom it posts to |
| Network.SoundStep | hw4/src/conf_utils.c:740-809 | every step (post, delivery of any snapshot ever sent, added neighbour) keeps all weights lengths of walks |
| Network.Soundness | hw4/src/conf_utils.c:740-809 | in every run, every weight in every table and snapshot is the length of some walk over configured or added links |
| Network.NeverBelowDistance | hw4/src/conf_utils.c:740-809 | in every run no weight is ever below the true distance |
| Optimality.OwnLinksAlways | hw4/src/conf_utils.c:362-412 | a node never loses a neighbour it was given nor values it above its cost |
| Optimality.RowsInsideAlways | hw4/src/conf_utils.c:771-797 | tables list only running nodes and never their owner |
| Optimality.WalksCostMore | hw4/src/conf_utils.c:740-809 | in a quiescent state where both ends value every link, no walk is cheaper than the listed weight |
| Optimality.QuiescentOptimalIff | hw4/src/conf_utils.c:740-809 | in at most 51 nodes with positive costs, a quiescent state of any run has exactly the true distances to exactly the reachable nodes if and only if every link is valued at no more than its cost at both ends |
| Optimality.SymmetricOptimal | hw4/src/conf_utils.c:740-809 | links configured at both ends give the true distances in every quiescent state |
| Convergence.MeasureFalls | hw4/src/conf_utils.c:764-808 | every change lowers, lexicographically, the number of unknown pairs and the sum of all weights |
| Convergence.Termination | hw4/src/conf_utils.c:764-808 | every endless run over finitely many uuids and non-negative costs has a last change of any table |
| Convergence.ComesToRest | hw4/src/main.c:1052-1128 | every fair run of at most 51 nodes with positive costs reaches a moment from which on no table changes, all are quiescent, and they are optimal if and only if both ends of every link value it |
| Convergence.Converges | hw4/src/main.c:1052-1128 | every fair run whose links end up symmetric reaches a moment from which on all tables hold the true distances for ever |
| FairRuns.FairRunExists | hw4/src/main.c:1052-1128 | from every initial state there is a fair run over its nodes and links |
| FairRuns.SomeRunConverges | hw4/src/main.c:1052-1128 | every network of at most 51 nodes with symmetric positive links has a fair run that ends with the true distances in all tables |
| OneSidedLink.OneSidedLinkStaysWrong | hw4/src/conf_utils.c:797-804 | there is a run that rests on a distance that is not the true one, because the sender's own entry is never lowered |
| Wire.JsonToNodeConfig | hw4/src/conf_utils.c:474-565 | refused are exactly texts that do not parse and those with more than 50 peers; else each field present is read by first match ignoring case, and the peers in order |
| Wire.NodeConfigToJson | hw4/src/conf_utils.c:155-230 | the text is the printed tree of the configuration, its peers in order, and its file map if there is one |
| Wire.ConfigNesting | hw4/src/conf_utils.c:155-230 | the tree is nested deeper than its file map, by exactly one where that is two deep or more, and otherwise at most three deep |
| Wire.ConfigFields | hw4/src/conf_utils.c:155-230 | looking a field of the printed tree up by name finds the value that was put under that name, the file map included, which is missing if and only if none was sent |
| Wire.ConfigReadBack | hw4/src/conf_utils.c:474-565 | what is read from the tree of a configuration agrees with it on uuid, name, ports, content directory, peer count and every peer in order |
| Advertisement.TextReadBack | hw4/src/conf_utils.c:223-475 | the printed text parses to the same tree exactly if the file map is nested below 1000 deep |
| Advertisement.Transmit | hw4/src/main.c:1110-1112 | printed and parsed, a configuration arrives with the same table, record for record, for every table of at most 50 peers |
| Advertisement.Advertise | hw4/src/main.c:521-636 | from the sender's array over the text to the receiver's array: on prefix-free uuids and duplicate-free tables the receiver takes in exactly the snapshot of the sender's map, and every new entry carries the record that was sent, the sender's own with the address it posted from |
| FileIndexes.UpdatePeerToFilesMap | hw4/src/conf_utils.c:600-645 | for any paths the loops over a peer's file map learn its nodes one after the other, each at the first stored path that extends it; where within a bucket no path extends another, the sender joins the holders of exactly the advertised paths, whatever the bucket order |
| FileIndexes.LearnPathModel | hw4/src/conf_utils.c:607-640 | one advertised path: the sender joins the holders of the first stored path that extends it, or the path is stored if there is none |
| FileIndexes.LearnPathIff | hw4/src/conf_utils.c:607-640 | that is learning the path itself if and only if no such path is in the way, or the sender is a holder of both already |
| FileIndexes.LearnAllLands | hw4/src/conf_utils.c:600-645 | all of a file map is learned by landings: each path on a stored path of its bucket that extends it, or on itself if there is none |
| FileIndexes.PutAddsKey | hw4/src/hmap_utils.c:76-97 | storing a path adds its key if and only if no stored path of its bucket extends it |
| FileIndexes.RebuiltKeys | hw4/src/conf_utils.c:582-591 | a table rebuilt from advertised paths has no other keys, and all that no other path of their bucket extends |
| FileIndexes.LearnedIsUnion | hw4/src/conf_utils.c:600-645 | where no path is in the way, learning is a union on the relation between paths and uuids: monotone, idempotent, and independent of the order of two advertisements |
| FileIndexes.ListFiles | hw4/src/main.c:406-452 | the stack-driven scan enters the files below the directory in the order in which it meets them, each if and only if no stored path of its bucket extends it; listed paths stay as they are, and all files are entered if and only if none is hidden so, as where no path of a bucket extends another |
| FileIndexes.VisitsAll | hw4/src/main.c:406-452 | the stack meets exactly the files below the directory |
| FileIndexes.VisitIsDepthFirst | hw4/src/main.c:406-452 | the loop over the stack of directories meets the files in the order of a recursion: those of a directory in the order of its entries, then those below its subdirectories, the last subdirectory first |
| FileIndexes.FilesUnderIff | hw4/src/main.c:406-452 | a path is that of a file below the directory if and only if names lead down to it none of which is `.DS_Store`, nor, for directories, `.` or `..` |
| FileIndexes.EnterPathModel | hw4/src/main.c:433-444 | a path is entered, with the scanning node as only holder, if and only if no stored path of its bucket extends it |
| FileIndexes.EntersAllIff | hw4/src/main.c:433-444 | every path met is entered if and only if none is extended, in its bucket, by a path listed or met before it |
| Gossip.AlwaysTraced | hw4/src/main.c:1052-1128 | in every run, whatever the paths: every indexed path was found by some node's scan, whoever is named as its holder knows the path or one that it extends in its bucket, and whoever found a path knows it or one that extends it |
| Gossip.HandlerDelivers | hw4/src/conf_utils.c:600-645 | what the handler does to a node's table is, for any paths, a delivery of the gossip model |
| Gossip.HandlerScans | hw4/src/main.c:406-452 | what a scan does to it is a scan of the model |
| Gossip.TracedApart | hw4/src/main.c:1052-1128 | where no found path extends another one of its bucket, named holders know the very path, and finders what they have found |
| Gossip.HoldersExactIff | hw4/src/conf_utils.c:600-645 | holders know the very path they are named for, in all runs that find no others than a given set of paths, if and only if no path of the set extends another one of its bucket |
| Gossip.LandsOnTheOther | hw4/src/conf_utils.c:609-614 | for any two paths of a bucket one of which extends the other there is a run in which a node is named as holder of the longer path without knowing it, and the shorter one is never listed |
| Gossip.ImgGoesWrong | hw4/src/conf_utils.c:609-614 | an instance: `content/img6` and `content/img62`, both in bucket 41 |
| Gossip.ImgHidden | hw4/src/main.c:433 | an instance: a scan that meets `img62` first does not list `img6` |
| Gossip.MisnamedIff | hw4/src/conf_utils.c:600-645 | where no found path extends another one of its bucket: from any moment of any run, a holder that has not found a path can come to be named without another find if and only if some node knows the path and some node has not found it |
| Gossip.Relay | hw4/src/conf_utils.c:600-645 | where no found path extends another one of its bucket, whoever knows a path can come to be listed as its holder at any node |
| Gossip.HolderMayNotHold | hw4/src/main.c:1110 | an instance: three nodes, one scan, and a holder whose own scans never met the path |
| Packets.TransferFile | hw4/src/udp-server.c:186-274 | the answer is the chunk at the requested start, short at the end of range or file, numbered like the request, with size and range end set on the first; silence where nothing can be read |
| StopAndWait.DownloadFile | hw4/src/udp-client.c:68-194 | the two loops with their retries and time-outs compute the client machine of the protocol model on any sequence of receives |
| StopAndWait.GivesUpIff | hw4/src/udp-client.c:92-189 | on any sequence of receives the download is given up if and only if a receive error comes before its end, or the first packet comes after more than five time-outs |
| StopAndWait.ConnectingIff | hw4/src/udp-client.c:92-121 | the client is still waiting for the handshake if and only if it has heard nothing but time-outs |
| StopAndWait.LaterTimeoutsPass | hw4/src/udp-client.c:158-163 | taking out all time-outs after the handshake leaves phase, packet number, position and output unchanged |
| StopAndWait.StrayPackets | hw4/src/udp-client.c:165-172 | a packet with another number than the expected one changes nothing |
| StopAndWait.PacketsInOrder | hw4/src/udp-client.c:165-189 | packets with the expected numbers are written one after the other, each moves the position by 1024, and the first short one ends the download |
| StopAndWait.AnswerGood | hw4/src/udp-server.c:206-269 | the server's answer to a request inside the file is the chunk its number names, and there is one exactly when bytes are left |
| StopAndWait.InvStep | hw4/src/udp-client.c:124-189 | loss, duplication, reordering, delay and late synacks all keep the protocol's invariant |
| StopAndWait.Safety | hw4/src/udp-client.c:124-189 | in every reachable state the output is a prefix of the file and `file_start_byte` is 1024 times the packet number and inside the file; a finished download is whole if and only if it ended on a file packet or the file is empty |
| StopAndWait.RoundsSuffice | hw4/src/udp-client.c:124-189 | from any transferring state, as many successful rounds as there are chunks left fetch the rest |
| StopAndWait.CompletesFromAnywhere | hw4/src/udp-client.c:124-189 | whatever has happened, `ceil(left / 1024)` rounds complete the output, and end the download if the size is no multiple of 1024 |
| StopAndWait.EveryRunCompletes | hw4/src/udp-client.c:124-189 | in every run, whatever is interleaved: after `k` accepted packets of the file the output has grown by `k` chunks, there are never more than `ceil(left / 1024)`, and the output is whole if and only if that many were accepted |
| StopAndWait.TakesSome | hw4/src/udp-client.c:124-189 | every run accepts some number of packets of the file, so the count above covers all runs |
| StopAndWait.CompletionIff | hw4/src/udp-client.c:174-187 | a download can end on a packet of the file if and only if the size is no multiple of 1024 |
| StopAndWait.LateSynackEndsEarly | hw4/src/udp-client.c:160-187 | a repeated synack after the handshake can end any download with nothing written |
| LiveTransfer.MultiplexUdp | hw4/src/main.c:858-1043 | one packet is answered, forwarded to the TCP client with the next request, or dropped, as its type and size say |
| LiveTransfer.AnswerIsData | hw4/src/main.c:858-949 | the answer to the request for chunk `k` is chunk `k` of the range, and there is none exactly when the range is used up |
| LiveTransfer.InvStep | hw4/src/main.c:858-1043 | every step keeps at most one packet under way and `start_byte` at the range's first byte plus 1024 times `ack_number` |
| LiveTransfer.RemainingFalls | hw4/src/main.c:858-1043 | every step spends some of a bounded number of packets |
| LiveRuns.ViewSafety | hw4/src/main.c:953-1043 | however many packets are lost, after `k` forwarded packets the first `min(1024 k, L)` bytes sent to the TCP client are those of the range, and at most `ceil(L / 1024)` data packets were sent |
| LiveRuns.ViewEnds | hw4/src/main.c:858-1043 | no view request takes more than `2 ceil(L / 1024) + 1` steps |
| LiveRuns.ViewCompletes | hw4/src/main.c:858-1043 | a loss-free transfer at rest has sent exactly `ceil(L / 1024)` packets and delivered the whole range, and has closed the connection exactly if `L` is no multiple of 1024 |
| LiveRuns.ComesToRest | hw4/src/main.c:858-1043 | any run can be continued without further loss until nothing is under way |
| LiveRuns.ViewServed | hw4/src/uri_parse.c:485-512 | every request for a range inside the file is served completely by some run from its first packet |
| LiveRuns.ServedIff | hw4/src/uri_parse.c:485-512 | the requests these results are about are those that ask for at least one byte of the file: whole, with both ends, or to the end of the file where the end is missing, zero or behind it |
| LiveRuns.UnservedIsSilence | hw4/src/main.c:858-949 | where a request asks for no byte, its first packet is not answered |
| LiveRuns.ViewDelivers | hw4/src/main.c:858-1043 | at any moment of any run the TCP client has got the leading bytes of what was asked for, 1024 for each forwarded packet; and every data packet under way names the size of the file |
| LiveRuns.ViewDeliversAll | hw4/src/main.c:858-1043 | a loss-free transfer at rest has delivered all bytes asked for, in as many packets as they take |
| CJsonStrings.Utf8RoundTrip | hw4/src/lib/cJSON/cJSON.c:652-770 | every code point is written as UTF-8 that an independent decoder reads back as itself |
| CJsonStrings.StringRoundTrip | hw4/src/lib/cJSON/cJSON.c:773-1021 | a printed string is parsed back as itself, and exactly it is consumed (section 7 of RFC 8259) |
| CJsonNumbers.IntRoundTrip | hw4/src/lib/cJSON/cJSON.c:305-379 | an integer that was printed is read back exactly and wholly |
| CJsonRoundTrip.NumberTrip | hw4/src/lib/cJSON/cJSON.c:545-612 | a printed number of `int` range, followed by anything that cannot continue it, is parsed back as the same item |
| CJsonRoundTrip.ValueTrip | hw4/src/lib/cJSON/cJSON.c:1312-1825 | at any place and depth, a printed value is parsed back as itself if it still fits the nesting limit, and refused if not |
| CJsonRoundTrip.PrintParse | hw4/src/lib/cJSON/cJSON.c:1312-1825 | parsing the printed text of any printable tree, formatted or not, gives back the same ordered tree and consumes all of it if and only if it is nested at most 1000 deep (section 2 of RFC 8259) |
| CJsonSpellings.SpellingRead | hw4/src/lib/cJSON/cJSON.c:773-899 | every spelling of a string, of plain characters, the eight short escapes, `\u` with four digits of either case, and surrogate pairs in any mixture, is read as that string up to its first NUL, and wholly consumed (section 7 of RFC 8259) |
| CJsonSpellings.PieceRead | hw4/src/lib/cJSON/cJSON.c:652-877 | both passes take any unit of a literal for the bytes it stands for, its code point tied to them by decoding UTF-8 |
| CJsonSpellings.Utf8Unique | hw4/src/lib/cJSON/cJSON.c:725-766 | there is only one shortest UTF-8 form of a code point, and it is the one written |
| CJsonSpellings.Hex4OrZero | hw4/src/lib/cJSON/cJSON.c:615-649 | four hexadecimal digits of either case are read as their number, and anything else as zero |
| CJsonSpellings.EscapeRefused | hw4/src/lib/cJSON/cJSON.c:652-877 | a backslash that begins no unit of the grammar, such as an unknown letter or a lone surrogate, makes the whole literal fail |
| CJsonSpellings.BadDigitsRead | hw4/src/lib/cJSON/cJSON.c:615-723 | the exception: a `\u` without its four digits is read as NUL |
| CJsonDecimals.DecimalIsRead | hw4/src/lib/cJSON/cJSON.c:305-361 | digits with an optional minus, fraction and exponent are read whole, as the number that the places of their digits denote (section 6 of RFC 8259) |
| CJsonDecimals.DecimalRead | hw4/src/lib/cJSON/cJSON.c:305-379 | such a number of at most 63 characters is parsed as that double, and as the int it is cut off and saturated to |
| CJsonDocuments.DocRead | hw4/src/lib/cJSON/cJSON.c:1312-1711 | a text of the grammar, with any white space in it, is read as the value it denotes if that is not nested too deep, and refused if it is |
| CJsonDocuments.DocumentRead | hw4/src/lib/cJSON/cJSON.c:1064-1178 | so is a whole text, with or without a byte order mark and white space before it, whatever comes behind it that cannot continue a number (section 2 of RFC 8259) |
| CJsonConformance.EscapeSpells | hw4/src/lib/cJSON/cJSON.c:974-1016 | each character is printed as a unit of the grammar that stands for it: no control character as it is, and digits only where there is no short escape |
| CJsonConformance.IntSpells | hw4/src/lib/cJSON/cJSON.c:545-612 | an int is printed as a number of the grammar, without leading zeros, that denotes it |
| CJsonConformance.PrintConforms | hw4/src/lib/cJSON/cJSON.c:1367-1825 | what is printed is JSON text by the grammar and denotes the tree, formatted or not, at any depth, with white space only where `PrintedDoc` puts it |
| ParseBuffers.ParseBuffer.SkipWhitespace | hw4/src/lib/cJSON/cJSON.c:1038-1061 | the offset moves over white space, and back onto the last byte at the end |
| ParseBuffers.ParseBuffer.MeasureString | hw4/src/lib/cJSON/cJSON.c:786-820 | the first pass finds the closing quote and counts one byte for each unit before it, and one more |
| ParseBuffers.BudgetUtf16 | hw4/src/lib/cJSON/cJSON.c:652-770 | a `\u` sequence writes no more bytes than the first pass counted for the characters it spans, even where malformed sequences let the two passes disagree on alignment |
| ParseBuffers.WriteUtf8 | hw4/src/lib/cJSON/cJSON.c:725-766 | the loop that writes continuation bytes from the end writes the UTF-8 form of the code point and nothing before it |
| ParseBuffers.ParseBuffer.FillOne | hw4/src/lib/cJSON/cJSON.c:823-877 | one turn of the second pass writes the bytes of one character or escape and stays within the count |
| ParseBuffers.ParseBuffer.FillString | hw4/src/lib/cJSON/cJSON.c:823-882 | for every input the second pass stays within the allocation of the first and writes the unescaped bytes and a NUL, or fails exactly where unescaping is undefined |
| ParseBuffers.ParseBuffer.ParseStringHere | hw4/src/lib/cJSON/cJSON.c:773-899 | both passes together compute string parsing, value and offset |
| ParseBuffers.ParseBuffer.ParseNumberHere | hw4/src/lib/cJSON/cJSON.c:305-379 | copying at most 63 characters and reading them computes number parsing |
| ParseBuffers.ParseBuffer.ParseValueHere | hw4/src/lib/cJSON/cJSON.c:1312-1364 | the dispatch on the first characters computes value parsing and restores the depth |
| ParseBuffers.ParseBuffer.ParseArrayHere | hw4/src/lib/cJSON/cJSON.c:1441-1536 | the loop over elements computes array parsing and restores the depth |
| ParseBuffers.ParseBuffer.ParseObjectHere | hw4/src/lib/cJSON/cJSON.c:1601-1711 | the loop over members computes object parsing and restores the depth |
| ParseBuffers.ParseText | hw4/src/lib/cJSON/cJSON.c:1095-1178 | `cJSON_Parse` succeeds exactly where the text has a value after byte order mark and white space, and returns it |
| PrintBuffers.PrintBuffer.Ensure | hw4/src/lib/cJSON/cJSON.c:439-522 | growing the buffer keeps what was printed; on success there is room, and it fails only past INT_MAX |
| PrintBuffers.PrintBuffer.UpdateOffset | hw4/src/lib/cJSON/cJSON.c:525-535 | measuring the string moves the offset to the end of what was written |
| PrintBuffers.EscapeSize | hw4/src/lib/cJSON/cJSON.c:922-958 | the text of a string is as long as its characters and the counted escapes, and equal to it where there are none |
| PrintBuffers.PrintBuffer.CountEscapes | hw4/src/lib/cJSON/cJSON.c:922-958 | the counting loop finds how much longer the escaped text is |
| PrintBuffers.PrintBuffer.CopyEscaped | hw4/src/lib/cJSON/cJSON.c:974-1016 | the copying loop writes the escaped text behind what was there |
| PrintBuffers.PrintBuffer.PrintStringHere | hw4/src/lib/cJSON/cJSON.c:902-1021 | counting, making room and copying write the string's text behind what was printed, with a NUL |
| PrintBuffers.PrintBuffer.PrintValueHere | hw4/src/lib/cJSON/cJSON.c:1367-1438 | any value's text is written behind what was printed, and the depth restored |
| PrintBuffers.PrintBuffer.PrintArrayHere | hw4/src/lib/cJSON/cJSON.c:1539-1598 | brackets, separators and elements make up the array's text, although the offset lags behind each element |
| PrintBuffers.PrintBuffer.PrintObjectHere | hw4/src/lib/cJSON/cJSON.c:1714-1825 | braces, indentation, keys and values make up the object's text |
| PrintBuffers.PrintText | hw4/src/lib/cJSON/cJSON.c:1187-1260 | what `cJSON_Print` returns is the specified text, and it returns one whenever it is shorter than INT_MAX by two |
| SiblingLists.ChildrenUnique | hw4/src/lib/cJSON/cJSON.c:1928-1987 | the links determine the sequence of children |
| SiblingLists.GetArrayItem | hw4/src/lib/cJSON/cJSON.c:1851-1868 | the walk returns the child at that place, or NULL |
| SiblingLists.AddItemToArray | hw4/src/lib/cJSON/cJSON.c:1956-1987 | NULL arguments and an item added to itself are refused and change nothing; else the children are the old ones and the item, with `prev` inverting `next` and the head's `prev` at the tail, if and only if the list was empty or the item's `next` was NULL |
| SiblingLists.DetachItemViaPointer | hw4/src/lib/cJSON/cJSON.c:2187-2221 | exactly the item at that place is taken out and unlinked, and the rest is a child list in the old order |
| SiblingLists.DetachItemFromArray | hw4/src/lib/cJSON/cJSON.c:2223-2231 | detaching by place, with NULL and no change for places outside |
| SiblingLists.InsertItemInArray | hw4/src/lib/cJSON/cJSON.c:2263-2290 | the item comes to stand at the given place, or at the end where there is no such place; negative places are refused |
| SiblingLists.ReplaceItemViaPointer | hw4/src/lib/cJSON/cJSON.c:2292-2339 | the replacement stands exactly where the item stood, at the head, inside or at the tail, and the item is unlinked |
| CJsonLookup.GetObjectItem | hw4/src/lib/cJSON/cJSON.c:1880-1910 | the loop returns the first member of that key, with or without regard to letter case, and nothing for what is no object |
| CJsonLookup.FieldIgnoresCase | hw4/src/lib/cJSON/cJSON.c:1880-1925 | names that differ in letter case only find the same member |
| CStrings.CompareIsLexical | hw4/src/lib/cJSON/cJSON_Utils.c:83-109 | the order of keys is that of the first byte that differs, and a string goes before its extensions |
| MergeSorts.MergeSortSorts | hw4/src/lib/cJSON/cJSON_Utils.c:484-593 | the sort gives the same elements in the order of their keys |
| MergeSorts.IsRising | hw4/src/lib/cJSON/cJSON_Utils.c:498-507 | the first loop recognises lists whose keys rise strictly |
| MergeSorts.FindMiddle | hw4/src/lib/cJSON/cJSON_Utils.c:510-521 | walking one pointer at half speed finds the middle |
| MergeSorts.MergeLists | hw4/src/lib/cJSON/cJSON_Utils.c:533-592 | relinking merges two chains of distinct nodes into the merged sequence, with `prev` inverting `next` but for the head |
| MergeSorts.SortList | hw4/src/lib/cJSON/cJSON_Utils.c:484-593 | `sort_list` relinks the very same nodes in the order of the sort on sequences and leaves `prev` inverse to `next` on all but the head, whose `prev` is unchanged if the head stayed and NULL otherwise |
| MergeSorts.ChildrenChained | hw4/src/lib/cJSON/cJSON_Utils.c:595-602 | a child list is a chain that the sort accepts |
| MergeSorts.SortObject | hw4/src/lib/cJSON/cJSON_Utils.c:595-602 | the children are relinked in sorted order, and they are a proper child list again if and only if the first key goes strictly before all others and the last key strictly after all others |
| MergeSorts.FirstStays | hw4/src/lib/cJSON/cJSON_Utils.c:484-593 | the sort keeps the first element first if and only if its key goes strictly before all others |
| MergeSorts.LastStays | hw4/src/lib/cJSON/cJSON_Utils.c:484-593 | the sort keeps the last element last if and only if its key goes strictly after all others |
| MergePatches.CompareIsSame | hw4/src/lib/cJSON/cJSON_Utils.c:604-690 | `compare_json`, which sorts both sides, decides equality up to the order of members |
| MergePatches.SortValue | hw4/src/lib/cJSON/cJSON_Utils.c:595-602 | sorting the members of an object leaves it the same map |
| MergePatches.GenerateMembersValue | hw4/src/lib/cJSON/cJSON_Utils.c:1419-1460 | walking two sorted lists side by side gives each key what its two values call for: removal, addition, nothing or a nested patch |
| MergePatches.MergeMembersValue | hw4/src/lib/cJSON/cJSON_Utils.c:1337-1377 | applying a patch does to each key what section 2 of RFC 7396 says, and leaves the others |
| MergePatches.MergeWhole | hw4/src/lib/cJSON/cJSON_Utils.c:1321-1379 | a whole tree applied to a target that is no object gives that tree if and only if no null is reachable in it through objects |
| MergePatches.KeyRoundTrip | hw4/src/lib/cJSON/cJSON_Utils.c:1419-1460 | for one key: no entry in the patch exactly if the values are equal, and applying it gives the new value exactly if nulls are kept |
| MergePatches.PatchRoundTrip | hw4/src/lib/cJSON/cJSON_Utils.c:1321-1471 | for keys ordered alike with and without case, under any choice of calls: applying the generated patch to the old tree gives the new one up to member order if and only if every null of the new tree was null in the old; there is no patch if and only if both are objects and equal |
| MergePatches.SensitiveRoundTrip | hw4/src/lib/cJSON/cJSON_Utils.c:1321-1481 | the same for the case-sensitive calls with any keys at the top, and below wherever the two trees do not both have an object |
| MergePatches.FlatRoundTrip | hw4/src/lib/cJSON/cJSON_Utils.c:1321-1481 | in particular for flat objects with any keys |
| MergePatches.InsensitiveIff | hw4/src/lib/cJSON/cJSON_Utils.c:1321-1476 | the case-insensitive calls bring about every null-free tree over a set of keys if and only if those keys are ordered alike with and without regard to case |
| MergePatches.SensitiveIff | hw4/src/lib/cJSON/cJSON_Utils.c:1321-1481 | the case-sensitive calls do so if and only if the keys of nested objects are ordered alike, because nested patches are generated without regard to case |
| MergePatches.DisagreeingGoesWrong | hw4/src/lib/cJSON/cJSON_Utils.c:1409-1460 | for any two keys that are sorted one way and compared the other there are two flat objects whose patch does not lead from one to the other |
| MergePatches.NestedGoesWrong | hw4/src/lib/cJSON/cJSON_Utils.c:1455 | one level down the case-sensitive calls go wrong on the same keys |
| MergePatches.LowerCaseAgrees | hw4/src/lib/cJSON/cJSON_Utils.c:83-109 | keys without upper-case letters meet the condition on keys |
| MergePatches.MixedCaseGoesWrong | hw4/src/lib/cJSON/cJSON_Utils.c:1409-1460 | an instance: the patch from `{a, B}` to `{B}` removes what it has restored |
| MergePatchLoops.CompareTrees | hw4/src/lib/cJSON/cJSON_Utils.c:604-690 | the loops over two lists compute the comparison |
| MergePatchLoops.ApplyMergePatch | hw4/src/lib/cJSON/cJSON_Utils.c:1321-1379 | the loop over the patch's members computes the patched tree |
| MergePatchLoops.GenerateMergePatch | hw4/src/lib/cJSON/cJSON_Utils.c:1391-1471 | the loop over two lists computes the patch |
| JsonPointers.CompareEncoded | hw4/src/lib/cJSON/cJSON_Utils.c:120-154 | a name is recognised in its own encoded form and no other name is, with slashes, tildes and empty names (section 3 of RFC 6901) |
| JsonPointers.ComparesIff | hw4/src/lib/cJSON/cJSON_Utils.c:120-154 | a token is taken for a name if and only if it is the encoded form of some key that equals the name, up to letter case if that is ignored; so a tilde before anything but 0 or 1 names nothing |
| JsonPointers.EncodeDecodes | hw4/src/lib/cJSON/cJSON_Utils.c:173-196 | replacing `~1` by a slash and then `~0` by a tilde takes an encoded name back (section 4 of RFC 6901) |
| JsonPointers.TokensDecoded | hw4/src/lib/cJSON/cJSON_Utils.c:274-298 | the tokens accepted as an index are exactly the empty one, `0`, and a digit from 1 on followed by any characters not below `0`; and what they read as |
| JsonPointers.OddTokens | hw4/src/lib/cJSON/cJSON_Utils.c:274-298 | instances: the empty token reads as 0 and `1:` as 20 |
| JsonPointers.IndexReadBack | hw4/src/lib/cJSON/cJSON_Utils.c:274-298 | a decimal array index followed by a slash or the end is read back |
| JsonPointers.FindsPointer | hw4/src/lib/cJSON/cJSON_Utils.c:198-259 | the search through the tree finds a node if and only if it is there, and spells the way to it |
| JsonPointers.StepTaken | hw4/src/lib/cJSON/cJSON_Utils.c:301-346 | the token of a child leads to the first child of that name, and is skipped exactly |
| JsonPointers.PointerRoundTrip | hw4/src/lib/cJSON/cJSON_Utils.c:301-346 | a node's pointer resolves to that very node if and only if no member on the way has an elder sibling of the same key (section 4 of RFC 6901) |
| JsonPointers.FindThenResolve | hw4/src/lib/cJSON/cJSON_Utils.c:198-346 | find and resolve together, on every node of every tree |
| JsonPointerLoops.EncodeStringAsPointer | hw4/src/lib/cJSON/cJSON_Utils.c:173-196 | the copying loop writes the encoded name |
| JsonPointerLoops.TokenIs | hw4/src/lib/cJSON/cJSON_Utils.c:120-154 | the two cursors compute the comparison of a name with a token |
| JsonPointerLoops.DecodeArrayIndex | hw4/src/lib/cJSON/cJSON_Utils.c:274-298 | the loop reads the index, with its check of only the first byte against `9` |
| JsonPointerLoops.GetItemFromPointer | hw4/src/lib/cJSON/cJSON_Utils.c:301-346 | the loops over tokens and siblings compute the resolved node |
| JsonPointerLoops.FindPointerFromObjectTo | hw4/src/lib/cJSON/cJSON_Utils.c:198-259 | the recursive search with its loop over children computes the pointer found |

## Left out

- Threads and interleaving inside a handler: each handler is one step of the network models.
- Sockets, `select`, DNS, HTTP framing and HTML, the rate-limiting sleeps, and the 4096-byte request buffer of `check_peer_status`.
- Integer width of weights, ports and file positions: they are unbounded, so overflow past 32 bits (files over 2 GiB, huge metrics) is not covered; the hash and cJSON's number saturation model theirs.
- The empty uuid, path or key: a size of zero makes the C code hash and compare eight bytes of a pointer, so keys are required not to be empty.
- `last_seen`: written into the text as given, ignored on reading as in the code, and not kept in the tables.
- `hash_table_put_str`: its copy of the key has no NUL behind it (hw4/src/hmap_utils.c:89-90), yet `strlen` is taken of it when a file map is taken in (hw4/src/conf_utils.c:608-609); keys are strings here, so what a later `strlen` reads past the copy is not modelled.
- LinkState.UpdatePeerWeights: does not model the `last_seen` stamp of the sender's entry.
- LinkState.ReceiveAdvertisement: covers the routing table only; the network map is `UpdateNetworkMap`, the file index `UpdatePeerToFilesMap`, the reply is not modelled.
- FileIndexes.UpdatePeerToFilesMap: holders are a set of uuids by value, so prefix collisions among uuids inside a file record are not covered. How `json_to_files_map` fills the peer's table is not modelled, because its records point to a local that is gone; an advertisement without a file map makes the handler follow a NULL pointer and is not modelled either.
- The chained nodes of a hash table: a chain is a sequence of entries with values, so a pointer kept into a node, and the sharing of key memory, are not captured; a write through a looked-up pointer is a second store at the same key.
- Fixed-size `char` arrays and `strcpy` into them, `malloc` failure, and lifetimes such as the stack record in `json_to_files_map` (hw4/src/conf_utils.c:587-589).
- `sscanf` of `/peer/addneighbor` and the configuration file: `AddPeer` starts from the scanned values; the HTTP query string is not modelled.
- Packets.TransferFile: does not model a range that ends more than one byte before its start, because the negative length becomes an enormous read into the packet; such requests are excluded by `Answerable`. A file that cannot be opened is not modelled either.
- The exact bytes behind the data of a short packet: they are arbitrary, and the live transfer sends them to the TCP client as the code does.
- LiveTransfer.MultiplexUdp: does not model the HTTP header sent with packet 0, nor the return when the TCP connection has gone (a dropped packet covers it).
- The client's user interface and retry timing: time-outs are events of the model.
- CJsonNumbers.IntRoundTrip: does not model numbers that are not whole or exceed `int`, because they are printed with 15 or 17 digits and rounded to doubles; `strtod` is exact over the reals.
- CJsonDocuments.DocumentRead: covers numbers of at most 63 characters, because the code copies only so many; leading zeros and raw control characters, which the code lets through, are covered, but not what else it accepts outside the grammar, such as `1.` with nothing behind the point.
- ParseBuffers.ParseText: does not model where the error pointer is left after a failure, nor texts given by length without a NUL; an object that ends behind a brace or comma fails in the model where the code reads one byte past the buffer.
- PrintBuffers.PrintText: does not model numbers that are not whole or exceed `int`, nor raw items, for the same reason.
- PrintBuffers.PrintBuffer.PrintValueHere: likewise.
- PrintBuffers.PrintBuffer.PrintArrayHere: likewise for the elements.
- PrintBuffers.PrintBuffer.PrintObjectHere: likewise for the values.
- Raw and reference items, `cJSON_PrintPreallocated`, `cJSON_PrintBuffered`, `cJSON_Minify`, custom allocation hooks.
- SiblingLists.ReplaceItemViaPointer: does not model that the replaced item is freed; items from a second list given as new items are outside what the contracts describe.
- MergePatches.PatchRoundTrip: trees are values with whole numbers and distinct keys in each object; the order of members inside a patch is not modelled (results are compared up to order). `SortObject` says when a sorted object is still a list to which members can be appended; where it is not, a patch has to be applied to a duplicate.
- MergePatches.CompareIsSame: does not model numbers that are not whole, because `compare_double` is not an equality on them.
- MergePatchLoops.CompareTrees: does not model that both inputs are left sorted.
- MergePatchLoops.GenerateMergePatch: does not model that both inputs are left sorted.
- JSON Patch (`cJSONUtils_ApplyPatches`, `cJSONUtils_GeneratePatches`): `decode_pointer_inplace` drops characters behind an escape, so no round trip holds to be stated. cJSON_Utils is in the tree but not linked (hw4/Makefile:15).
- JsonPointerLoops.DecodeArrayIndex: does not model the wrap of `size_t` in array indices.
- `hashmap.c`, `stack.c`, `json_utils.c`, uuid generation, content types, the `connections` array and the programs in `src/udp`: easy members next to what is modelled.
