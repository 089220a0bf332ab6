/**
 One whole advertisement, from the sender's array to the receiver's: printed by the sender
 (`check_peer_status`), parsed and taken in by the receiver (the `/link-state` handler). What
 happens to the receiver's table is the delivery step of the network model.
 */
module Advertisement {
  import opened Wrappers
  import opened HashTables
  import opened CJsonStrings
  import opened CJsonNumbers
  import opened CJson
  import opened CJsonLookup
  import opened CJsonRoundTrip
  import opened PeerTables
  import opened LinkState
  import opened Wire
  import Network

  function FileNesting(m: Sent): nat {
    if m.files.Some? then Nesting(m.files.value) else 0
  }

  /** The text is read back as the tree it was printed from, unless the file index is nested
      as deep as cJSON allows for the whole. */
  lemma TextReadBack(m: Sent, formatted: bool)
    requires Sendable(m)
    ensures var text := Print(ConfigJson(m), formatted, 0);
            Parse(text) == if FileNesting(m) < NESTING_LIMIT then Parsed(ConfigJson(m), |text|) else Failed
  {
    hide Print, Printable, ConfigJson;
    ConfigPrintable(m);
    ConfigNesting(m);
    PrintParse(ConfigJson(m), formatted);
  }

  /** The sender's configuration as text and back. */
  method Transmit(sender: NodeConfig, formatted: bool, lastSeen: string, peerSeen: seq<string>, files: Option<Json>)
      returns (c: NodeConfig?)
    requires sender.Valid() && Sendable(Outgoing(sender, lastSeen, peerSeen, files))
    ensures var m := Outgoing(sender, lastSeen, peerSeen, files);
            && (c != null ==> FileNesting(m) < NESTING_LIMIT)
            && (FileNesting(m) < NESTING_LIMIT && |Print(ConfigJson(m), formatted, 0)| + 2 <= INT_MAX ==> c != null)
    ensures c != null ==> fresh(c) && fresh(c.peers) && c.Valid() && c.Table() == sender.Table()
    ensures c != null ==> c.AsPeer(0) == sender.AsPeer(0).(host := c.host) && c.contentDir == sender.contentDir
  {
    hide Print, Parse, Printable, ConfigJson, FileNesting;
    ghost var m := Outgoing(sender, lastSeen, peerSeen, files);
    TextReadBack(m, formatted);
    var text := NodeConfigToJson(sender, formatted, lastSeen, peerSeen, files);
    if text == None {
      return null;
    }
    c := JsonToNodeConfig(text.value);
    ConfigItems(m);
    if c != null {
      ConfigReadBack(m, c);
    }
  }

  lemma ConfigItems(m: Sent)
    requires |m.peerSeen| == |m.table|
    ensures |PeerItems(ConfigJson(m))| == |m.table|
  {
    hide ConfigJson, Field;
    ConfigFields(m);
  }

  /** One advertisement, which always has a file map. On prefix-free uuids and duplicate-free
      tables the receiver's map of weights takes in the snapshot of the sender's. */
  method Advertise(sender: NodeConfig, receiver: NodeConfig, address: string,
                   lastSeen: string, peerSeen: seq<string>, files: Json) returns (arrived: bool)
    requires sender.Valid() && receiver.Valid() && sender != receiver && sender.peers != receiver.peers
    requires Sendable(Outgoing(sender, lastSeen, peerSeen, Some(files)))
    requires sender.uuid != "" && receiver.uuid != "" && forall p :: p in sender.Table() ==> p.uuid != ""
    modifies receiver`peerCount, receiver.peers
    ensures receiver.Valid()
    ensures var m := Outgoing(sender, lastSeen, peerSeen, Some(files));
            && (arrived ==> FileNesting(m) < NESTING_LIMIT)
            && (FileNesting(m) < NESTING_LIMIT && |Print(ConfigJson(m), true, 0)| + 2 <= INT_MAX ==> arrived)
    ensures !arrived ==> receiver.Table() == old(receiver.Table())
    ensures arrived && PrefixFree(Uuids(sender.Table()) + {sender.uuid, receiver.uuid})
            && Distinct(sender.Table()) && Distinct(old(receiver.Table())) ==>
              && Network.TakenIn(WeightsOf(old(receiver.Table())),
                                 Network.Message(sender.uuid, receiver.uuid, WeightsOf(sender.Table())),
                                 WeightsOf(receiver.Table()))
              && Extends(old(receiver.Table()), receiver.Table(), receiver.uuid)
              && NewEntries(old(receiver.Table()), receiver.Table(), sender.AsPeer(0).(host := address), sender.Table())
  {
    hide ConfigJson, FileNesting, Sendable, PrefixFree, Distinct, WeightsOf, Advert, WeightMap, Extends, Print;
    hide Network.TakenIn, RecordsFrom, NewEntries;
    var c := Transmit(sender, true, lastSeen, peerSeen, Some(files));
    if c == null {
      return false;
    }
    c.host := address;
    ghost var was, t := receiver.Table(), sender.Table();
    ReceiveAdvertisement(receiver, c);
    if PrefixFree(Uuids(t) + {sender.uuid, receiver.uuid}) && Distinct(t) && Distinct(was) {
      Delivered(was, receiver.Table(), c.AsPeer(0), t, receiver.uuid);
      RecordsArrive(was, receiver.Table(), c.AsPeer(0), t);
    }
    return true;
  }

  /** New entries: the sender's own carries its record with the address it posted from, any other
      the record that the sender's array has first for its uuid. */
  ghost predicate NewEntries(was: Table, now: Table, self: Peer, t: Table) {
    forall i :: |was| <= i < |now| ==>
      var p := now[i];
      if p.uuid == self.uuid then Record(p) == Record(self)
      else IndexOf(t, p.uuid) < |t| && Record(p) == Record(t[IndexOf(t, p.uuid)])
  }

  lemma RecordsArrive(was: Table, now: Table, self: Peer, t: Table)
    requires RecordsFrom(was, now, Advert(self, t))
    ensures NewEntries(was, now, self, t)
  {
    hide Advert, IsLeast;
    AdvertMeaning(self, t);
    var m := Advert(self, t);
    forall i | |was| <= i < |now|
      ensures var p := now[i];
              if p.uuid == self.uuid then Record(p) == Record(self)
              else IndexOf(t, p.uuid) < |t| && Record(p) == Record(t[IndexOf(t, p.uuid)])
    {
      assert now[i].uuid in m && Record(now[i]) == Record(m[now[i].uuid]);
      assert now[i].uuid != self.uuid ==> FirstRecord(m[now[i].uuid], t, now[i].uuid);
    }
  }

  lemma Delivered(was: Table, now: Table, self: Peer, t: Table, me: string)
    requires Distinct(t) && self.weight == 0
    requires var adv := WeightMap(Advert(self, t));
             RelaxedBy(was, now, Given(WeightsOf(was), adv, me, self.uuid), adv, me, self.uuid)
    ensures Network.TakenIn(WeightsOf(was), Network.Message(self.uuid, me, WeightsOf(t)), WeightsOf(now))
    ensures Extends(was, now, me)
  {
    Network.HandlerDelivers(was, now, self, t, me);
  }
}
