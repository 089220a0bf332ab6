/**
 The stop-and-wait download: `download_file` of udp-client.c against the stateless server of
 udp-server.c, over a network that may lose, repeat, reorder and delay packets.
 */
module StopAndWait {
  import opened Wrappers
  import opened Packets

  datatype Phase = Connecting | Transferring | Finished(last: Packet) | GaveUp

  /** The locals of `download_file` and the file it writes. */
  datatype Client = Client(phase: Phase, retries: nat, packetNumber: nat, fileStart: nat, written: seq<Byte>)

  const START: Client := Client(Connecting, 0, 0, 0, [])

  /** What one `recvfrom_timeout` returns. */
  datatype Event = Timeout | RecvError | Received(p: Packet)

  function SynPacket(memory: seq<Byte>): Packet {
    Packet(Syn, 0, 0, 0, 0, 0, false, 0, memory)
  }

  function AckPacket(c: Client, memory: seq<Byte>): Packet {
    Packet(Ack, c.packetNumber, c.fileStart, -1, c.packetNumber, 0, false, 0, memory)
  }

  /** The bytes `fwrite` takes from a packet. */
  function Payload(p: Packet): seq<Byte> {
    if 0 <= p.dataSize <= |p.data| then p.data[..p.dataSize] else []
  }

  /** One turn of the loop the client is in, after the packet it waits for. Neither the
      packet type nor the size is checked: the first loop takes any packet for the synack,
      the second any packet with the expected number. */
  ghost function Hear(c: Client, e: Event): Client {
    match c.phase
    case Connecting =>
      if e == Timeout then c.(retries := c.retries + 1)
      else if e == RecvError || c.retries > 5 then c.(phase := GaveUp)
      else c.(phase := Transferring)
    case Transferring =>
      if e == Timeout then c
      else if e == RecvError then c.(phase := GaveUp)
      else if e.p.packetNumber != c.packetNumber then c
      else if e.p.dataSize < PACKET_DATA_SIZE then
        c.(phase := Finished(e.p), written := c.written + Payload(e.p))
      else c.(packetNumber := c.packetNumber + 1, fileStart := c.fileStart + PACKET_DATA_SIZE,
              written := c.written + Payload(e.p))
    case Finished(_) => c
    case GaveUp => c
  }

  ghost function HearAll(c: Client, events: seq<Event>): Client
    decreases |events|
  {
    if events == [] then c else HearAll(Hear(c, events[0]), events[1..])
  }

  lemma {:induction false} OverIsOver(c: Client, events: seq<Event>)
    requires c.phase.Finished? || c.phase.GaveUp?
    ensures HearAll(c, events) == c
    decreases |events|
  {
    if events != [] {
      OverIsOver(c, events[1..]);
    }
  }

  /** `download_file` with its two loops, fed with the outcomes of its receives; it returns
      when it breaks out, or when the outcomes run out. */
  method DownloadFile(events: seq<Event>) returns (phase: Phase, packetNumber: nat, fileStart: nat, written: seq<Byte>)
    ensures var c := HearAll(START, events);
            c.phase == phase && c.packetNumber == packetNumber && c.fileStart == fileStart && c.written == written
  {
    packetNumber, fileStart, written := 0, 0, [];
    var retries, i := 0, 0;
    ghost var all := HearAll(START, events);
    assert events[0..] == events;
    phase := Connecting;
    while i < |events| && phase == Connecting
      invariant i <= |events| && phase in {Connecting, Transferring}
      invariant HearAll(Client(phase, retries, 0, 0, []), events[i..]) == all
      decreases |events| - i
    {
      var e := events[i];
      assert events[i..][1..] == events[i + 1..];
      i := i + 1;
      if e == Timeout {
        retries := retries + 1;
      } else if e == RecvError || retries > 5 {
        OverIsOver(Client(GaveUp, retries, 0, 0, []), events[i..]);
        return GaveUp, 0, 0, [];
      } else {
        phase := Transferring;
      }
    }
    while i < |events|
      invariant i <= |events| && (i < |events| ==> phase == Transferring)
      invariant phase in {Connecting, Transferring}
      invariant HearAll(Client(phase, retries, packetNumber, fileStart, written), events[i..]) == all
    {
      var e := events[i];
      assert events[i..][1..] == events[i + 1..];
      i := i + 1;
      if e == Timeout {
        continue;
      } else if e == RecvError {
        phase := GaveUp;
        OverIsOver(Client(phase, retries, packetNumber, fileStart, written), events[i..]);
        return;
      }
      if e.p.packetNumber != packetNumber {
        continue;
      }
      written := written + Payload(e.p);
      if e.p.dataSize < PACKET_DATA_SIZE {
        phase := Finished(e.p);
        OverIsOver(Client(phase, retries, packetNumber, fileStart, written), events[i..]);
        return;
      }
      packetNumber := packetNumber + 1;
      fileStart := fileStart + PACKET_DATA_SIZE;
    }
  }

  // ---------------------------------------------------------------- what the events decide

  lemma {:induction false} HearOneMore(c: Client, events: seq<Event>, e: Event)
    ensures HearAll(c, events + [e]) == Hear(HearAll(c, events), e)
    decreases |events|
  {
    if events == [] {
      assert events + [e] == [e] && [e][1..] == [];
      assert HearAll(Hear(c, e), []) == Hear(c, e);
    } else {
      HearOneMore(Hear(c, events[0]), events[1..], e);
      assert (events + [e])[1..] == events[1..] + [e];
    }
  }

  /** Nothing but time-outs before the event `i`. */
  predicate Silence(events: seq<Event>, i: nat)
    requires i <= |events|
  {
    forall j :: 0 <= j < i ==> events[j] == Timeout
  }

  /** The event `i` makes the client give up, unless the download has ended before: a receive
      error, or a first packet that comes after more than five time-outs. */
  predicate Fatal(events: seq<Event>, i: nat)
    requires i < |events|
  {
    events[i] == RecvError || (events[i].Received? && i > 5 && Silence(events, i))
  }

  /** While the client is connecting it has heard nothing but time-outs, and has counted them. */
  lemma {:induction false} ConnectingIff(events: seq<Event>)
    ensures var c := HearAll(START, events);
            && (c.phase.Connecting? <==> Silence(events, |events|))
            && (c.phase.Connecting? ==> c == Client(Connecting, |events|, 0, 0, []))
    decreases |events|
  {
    if events != [] {
      var es, e := events[..|events| - 1], events[|events| - 1];
      assert events == es + [e];
      ConnectingIff(es);
      HearOneMore(START, es, e);
    }
  }

  /** When the client gives up. */
  lemma {:induction false} GivesUpIff(events: seq<Event>)
    ensures HearAll(START, events).phase.GaveUp? <==>
            exists i :: 0 <= i < |events| && Fatal(events, i) && !HearAll(START, events[..i]).phase.Finished?
    decreases |events|
  {
    if events != [] {
      var n := |events| - 1;
      var es, e := events[..n], events[n];
      assert events == es + [e];
      GivesUpIff(es);
      ConnectingIff(es);
      HearOneMore(START, es, e);
      var c := HearAll(START, es);
      forall i | 0 <= i < n
        ensures Fatal(es, i) == Fatal(events, i) && es[..i] == events[..i]
      {
      }
      assert Silence(es, n) == Silence(events, n);
      assert c.phase.GaveUp? || Hear(c, e).phase.GaveUp? <==>
             c.phase.GaveUp? || (Fatal(events, n) && !c.phase.Finished?);
      if c.phase.GaveUp? {
        var i :| 0 <= i < |es| && Fatal(es, i) && !HearAll(START, es[..i]).phase.Finished?;
        assert Fatal(events, i) && events[..i] == es[..i];
      } else if Hear(c, e).phase.GaveUp? {
        assert Fatal(events, n) && events[..n] == es;
      }
    }
  }

  function NoTimeouts(events: seq<Event>): seq<Event> {
    if events == [] then []
    else (if events[0] == Timeout then [] else [events[0]]) + NoTimeouts(events[1..])
  }

  /** Once the client is connected, time-outs change nothing: the `ack` is sent again. */
  lemma {:induction false} TimeoutsPass(c: Client, events: seq<Event>)
    requires !c.phase.Connecting?
    ensures HearAll(c, NoTimeouts(events)) == HearAll(c, events)
    decreases |events|
  {
    if events != [] {
      var rest := NoTimeouts(events[1..]);
      TimeoutsPass(Hear(c, events[0]), events[1..]);
      if events[0] == Timeout {
        assert NoTimeouts(events) == rest;
      } else {
        assert NoTimeouts(events) == [events[0]] + rest && ([events[0]] + rest)[1..] == rest;
      }
    }
  }

  lemma {:induction false} HearThen(c: Client, events: seq<Event>, more: seq<Event>)
    ensures HearAll(c, events + more) == HearAll(HearAll(c, events), more)
    decreases |events|
  {
    if events == [] {
      assert events + more == more;
    } else {
      HearThen(Hear(c, events[0]), events[1..], more);
      assert (events + more)[1..] == events[1..] + more;
    }
  }

  /** So all time-outs behind the first event that is none may be taken out. */
  lemma LaterTimeoutsPass(events: seq<Event>, h: nat)
    requires h < |events| && events[h] != Timeout
    ensures HearAll(START, events[..h + 1] + NoTimeouts(events[h + 1..])) == HearAll(START, events)
  {
    var opening, rest := events[..h + 1], events[h + 1..];
    assert events == opening + rest && !Silence(opening, |opening|) by {
      assert opening[h] != Timeout;
    }
    ConnectingIff(opening);
    HearThen(START, opening, rest);
    HearThen(START, opening, NoTimeouts(rest));
    TimeoutsPass(HearAll(START, opening), rest);
  }

  /** Packets with other than the expected number change nothing either. */
  lemma StrayPackets(c: Client, p: Packet)
    requires c.phase.Transferring? && p.packetNumber != c.packetNumber
    ensures HearAll(c, [Received(p)]) == c
  {
    assert [Received(p)][1..] == [];
    assert HearAll(c, []) == c;
  }

  function Payloads(ps: seq<Packet>): seq<Byte> {
    if ps == [] then [] else Payload(ps[0]) + Payloads(ps[1..])
  }

  function Arrivals(ps: seq<Packet>): seq<Event> {
    seq(|ps|, i requires 0 <= i < |ps| => Received(ps[i]))
  }

  /** Full packets with the expected numbers are written one after the other, and the first short
      one ends the download. */
  lemma {:induction false} PacketsInOrder(c: Client, ps: seq<Packet>)
    requires c.phase.Transferring? && ps != []
    requires forall i :: 0 <= i < |ps| ==> ps[i].packetNumber == c.packetNumber + i
    requires forall i :: 0 <= i < |ps| - 1 ==> ps[i].dataSize >= PACKET_DATA_SIZE
    ensures var c', last := HearAll(c, Arrivals(ps)), ps[|ps| - 1];
            && c'.written == c.written + Payloads(ps)
            && (if last.dataSize < PACKET_DATA_SIZE then
                  c'.phase == Finished(last) && c'.packetNumber == c.packetNumber + |ps| - 1
                else c'.phase.Transferring? && c'.packetNumber == c.packetNumber + |ps|)
            && c'.fileStart - c.fileStart == PACKET_DATA_SIZE * (c'.packetNumber - c.packetNumber)
    decreases |ps|
  {
    hide Hear, HearAll, Payload, Arrivals;
    HearExpected(c, ps[0]);
    var rest := ps[1..];
    var c1 := Hear(c, Received(ps[0]));
    HearFirst(c, ps);
    if rest == [] {
      assert Payloads(ps) == Payload(ps[0]);
    } else {
      PacketsInOrder(c1, rest);
      assert Payload(ps[0]) + Payloads(rest) == Payloads(ps);
    }
  }

  lemma HearFirst(c: Client, ps: seq<Packet>)
    requires ps != []
    ensures HearAll(c, Arrivals(ps)) == HearAll(Hear(c, Received(ps[0])), Arrivals(ps[1..]))
    ensures HearAll(Hear(c, Received(ps[0])), Arrivals([])) == Hear(c, Received(ps[0]))
  {
    hide Hear;
    assert Arrivals(ps)[1..] == Arrivals(ps[1..]);
  }

  lemma HearExpected(c: Client, p: Packet)
    requires c.phase.Transferring? && p.packetNumber == c.packetNumber
    ensures var c' := Hear(c, Received(p));
            && c'.written == c.written + Payload(p)
            && if p.dataSize < PACKET_DATA_SIZE then
                 c'.phase == Finished(p) && c'.packetNumber == c.packetNumber && c'.fileStart == c.fileStart
               else
                 c'.phase.Transferring? && c'.packetNumber == c.packetNumber + 1
                 && c'.fileStart == c.fileStart + PACKET_DATA_SIZE
  {
  }

  // ---------------------------------------------------------------- client, network, server

  /** Packets are never taken off the wires: whatever was sent may arrive any number of
      times, in any order, or not at all. */
  datatype World = World(client: Client, toServer: set<Packet>, toClient: set<Packet>)

  datatype Step =
    | Stutter
    | SendSyn(memory: seq<Byte>)
    | SendAck(memory: seq<Byte>)
    | ServeSyn(p: Packet, text: seq<Byte>)      // routing_handler's answer to a "syn": the size, as text
    | ServeAck(p: Packet, memory: seq<Byte>)    // transfer_file
    | Arrive(e: Event)

  ghost predicate Enabled(file: seq<Byte>, w: World, step: Step) {
    match step
    case Stutter => true
    case SendSyn(memory) => w.client.phase.Connecting?
    case SendAck(memory) => w.client.phase.Transferring?
    case ServeSyn(p, text) => p in w.toServer && (p.kind.Syn? || p.kind.SynAck?)
    case ServeAck(p, memory) => p in w.toServer && p.kind.Ack? && |memory| == PACKET_DATA_SIZE && Answerable(p, |file|)
    case Arrive(e) => e.Received? ==> e.p in w.toClient
  }

  ghost function Apply(file: seq<Byte>, w: World, step: Step): World
    requires Enabled(file, w, step)
  {
    match step
    case Stutter => w
    case SendSyn(memory) => w.(toServer := w.toServer + {SynPacket(memory)})
    case SendAck(memory) => w.(toServer := w.toServer + {AckPacket(w.client, memory)})
    case ServeSyn(p, text) => w.(toClient := w.toClient + {p.(kind := SynAck, data := text)})
    case ServeAck(p, memory) =>
      var reply := Answer(file, p, p.kind, memory);
      if reply == None then w else w.(toClient := w.toClient + {reply.value})
    case Arrive(e) => w.(client := Hear(w.client, e))
  }

  /** `w'` can be reached from `w` in exactly `n` steps. */
  ghost predicate Reaches(file: seq<Byte>, w: World, w': World, n: nat)
    decreases n
  {
    if n == 0 then w == w'
    else exists step :: Enabled(file, w, step) && Reaches(file, Apply(file, w, step), w', n - 1)
  }

  const INITIAL: World := World(START, {}, {})

  ghost predicate Reachable(file: seq<Byte>, w: World) {
    exists n: nat :: Reaches(file, INITIAL, w, n)
  }

  // ---------------------------------------------------------------- safety

  /** An `ack` on the wire asks for the chunk its number names, inside the file. */
  ghost predicate GoodRequest(file: seq<Byte>, p: Packet) {
    && !p.hasRange
    && (p.kind == Syn ==> p.packetNumber == 0 && p.dataSize == 0)
    && p.kind != SynAck
    && (p.kind == Ack ==> 0 <= p.startByte == PACKET_DATA_SIZE * p.ackNumber <= |file|)
  }

  /** A packet on its way back is an empty synack or the numbered chunk of the file. */
  ghost predicate GoodReply(file: seq<Byte>, p: Packet) {
    if p.kind == SynAck then p.packetNumber == 0 && p.dataSize == 0
    else
      && p.kind == Ack
      && 0 <= PACKET_DATA_SIZE * p.packetNumber < |file|
      && p.dataSize == Min(PACKET_DATA_SIZE, |file| - PACKET_DATA_SIZE * p.packetNumber)
      && |p.data| == PACKET_DATA_SIZE
      && p.data[..p.dataSize] == file[PACKET_DATA_SIZE * p.packetNumber..PACKET_DATA_SIZE * p.packetNumber + p.dataSize]
  }

  /** The output so far is the file up to the client's position; a finished download holds
      the whole file when its last packet came from `transfer_file`, and nothing at all when
      it was a late synack. */
  ghost predicate GoodClient(file: seq<Byte>, c: Client) {
    && c.fileStart == PACKET_DATA_SIZE * c.packetNumber <= |file|
    && (!c.phase.Finished? ==> c.written == file[..c.fileStart])
    && (c.phase.Finished? ==> if c.phase.last.kind == Ack then c.written == file && |file| % PACKET_DATA_SIZE != 0
                              else c.phase.last.kind == SynAck && c.written == [])
  }

  ghost predicate Inv(file: seq<Byte>, w: World) {
    && GoodClient(file, w.client)
    && (forall p :: p in w.toServer ==> GoodRequest(file, p))
    && (forall p :: p in w.toClient ==> GoodReply(file, p))
  }

  lemma AnswerGood(file: seq<Byte>, p: Packet, memory: seq<Byte>)
    requires GoodRequest(file, p) && p.kind == Ack && |memory| == PACKET_DATA_SIZE
    ensures var r := Answer(file, p, Ack, memory);
            && (r.Some? ==> GoodReply(file, r.value) && r.value.packetNumber == p.ackNumber)
            && (r.Some? <==> p.startByte < |file|)
  {
  }

  lemma HearGood(file: seq<Byte>, c: Client, e: Event)
    requires GoodClient(file, c) && (e.Received? ==> GoodReply(file, e.p))
    ensures GoodClient(file, Hear(c, e))
  {
    if c.phase.Transferring? && e.Received? && e.p.packetNumber == c.packetNumber {
      if e.p.kind == SynAck {
        assert c.packetNumber == 0;
      } else {
        TakeChunk(file, c.fileStart, e.p.dataSize);
      }
    }
  }

  lemma TakeChunk(file: seq<Byte>, at: nat, n: nat)
    requires at + n <= |file|
    ensures file[..at] + file[at..at + n] == file[..at + n]
    ensures at + n == |file| ==> file[..at + n] == file
  {
  }

  lemma InvStep(file: seq<Byte>, w: World, step: Step)
    requires Inv(file, w) && Enabled(file, w, step)
    ensures Inv(file, Apply(file, w, step))
  {
    match step
    case Stutter =>
    case SendSyn(memory) =>
    case SendAck(memory) =>
    case ServeSyn(p, text) =>
    case ServeAck(p, memory) => AnswerGood(file, p, memory);
    case Arrive(e) => HearGood(file, w.client, e);
  }

  lemma {:induction false} InvReaches(file: seq<Byte>, w: World, w': World, n: nat)
    requires Inv(file, w) && Reaches(file, w, w', n)
    ensures Inv(file, w')
    decreases n
  {
    if n > 0 {
      var step :| Enabled(file, w, step) && Reaches(file, Apply(file, w, step), w', n - 1);
      InvStep(file, w, step);
      InvReaches(file, Apply(file, w, step), w', n - 1);
    }
  }

  /** Safety: in every reachable state the output is a prefix of the served file, and the
      position is 1024 times the packet number and inside the file. A finished download is
      complete if and only if it ended on a file packet (or there was nothing to send). */
  lemma Safety(file: seq<Byte>, w: World)
    requires Reachable(file, w)
    ensures w.client.written <= file
    ensures w.client.fileStart == PACKET_DATA_SIZE * w.client.packetNumber <= |file|
    ensures !w.client.phase.Finished? ==> w.client.written == file[..w.client.fileStart]
    ensures w.client.phase.Finished? ==>
              (w.client.written == file <==> w.client.phase.last.kind == Ack || file == [])
  {
    var n: nat :| Reaches(file, INITIAL, w, n);
    InvReaches(file, INITIAL, w, n);
  }

  // ---------------------------------------------------------------- completion

  lemma {:induction false} ReachesThen(file: seq<Byte>, w: World, w1: World, w2: World, m: nat, n: nat)
    requires Reaches(file, w, w1, m) && Reaches(file, w1, w2, n)
    ensures Reaches(file, w, w2, m + n)
    decreases m
  {
    if m > 0 {
      var step :| Enabled(file, w, step) && Reaches(file, Apply(file, w, step), w1, m - 1);
      ReachesThen(file, Apply(file, w, step), w1, w2, m - 1, n);
      assert Reaches(file, Apply(file, w, step), w2, m + n - 1);
    }
  }

  lemma OneStep(file: seq<Byte>, w: World, step: Step)
    requires Enabled(file, w, step)
    ensures Reaches(file, w, Apply(file, w, step), 1)
  {
    assert Reaches(file, Apply(file, w, step), Apply(file, w, step), 0);
  }

  /** One successful round: the request gets through, is answered, and the answer gets back. */
  lemma Round(file: seq<Byte>, w: World, memory: seq<Byte>) returns (w': World)
    requires Inv(file, w) && w.client.phase.Transferring? && w.client.fileStart < |file|
    requires |memory| == PACKET_DATA_SIZE
    ensures Inv(file, w') && Reaches(file, w, w', 3)
    ensures if |file| - w.client.fileStart < PACKET_DATA_SIZE
            then w'.client.phase.Finished? && w'.client.written == file
            else w'.client.phase.Transferring? && w'.client.fileStart == w.client.fileStart + PACKET_DATA_SIZE
  {
    var ack := AckPacket(w.client, memory);
    var w1 := Apply(file, w, SendAck(memory));
    InvStep(file, w, SendAck(memory));
    OneStep(file, w, SendAck(memory));
    var w2 := Apply(file, w1, ServeAck(ack, memory));
    InvStep(file, w1, ServeAck(ack, memory));
    OneStep(file, w1, ServeAck(ack, memory));
    AnswerGood(file, ack, memory);
    var e := Received(Answer(file, ack, Ack, memory).value);
    w' := Apply(file, w2, Arrive(e));
    InvStep(file, w2, Arrive(e));
    OneStep(file, w2, Arrive(e));
    ReachesThen(file, w, w1, w2, 1, 1);
    ReachesThen(file, w, w2, w', 2, 1);
  }

  lemma CeilSteps(n: nat)
    ensures CeilDiv(0) == 0
    ensures 0 < n < PACKET_DATA_SIZE ==> CeilDiv(n) == 1 && n % PACKET_DATA_SIZE != 0
    ensures PACKET_DATA_SIZE <= n ==> CeilDiv(n) == 1 + CeilDiv(n - PACKET_DATA_SIZE)
  {
  }

  lemma Stays(file: seq<Byte>, w: World)
    ensures Reaches(file, w, w, 0)
  {
  }

  /** The file's bytes the client has not yet written. */
  function Left(file: seq<Byte>, c: Client): nat {
    if c.fileStart <= |file| then |file| - c.fileStart else 0
  }

  /** From any transferring state, however the run got there, as many successful rounds as
      there are chunks left fetch the whole file; they also end the download exactly when
      its size is not a multiple of 1024. */
  lemma {:induction false} RoundsSuffice(file: seq<Byte>, w: World, memory: seq<Byte>) returns (w': World)
    requires Inv(file, w) && w.client.phase.Transferring? && |memory| == PACKET_DATA_SIZE
    ensures Inv(file, w') && Reaches(file, w, w', 3 * CeilDiv(Left(file, w.client)))
    ensures w'.client.written == file
    ensures w'.client.phase.Finished? || (w'.client.phase.Transferring? && |file| == w'.client.fileStart)
    decreases Left(file, w.client)
  {
    hide Reaches, CeilDiv;
    var left := Left(file, w.client);
    CeilSteps(left);
    ClientStands(file, w);
    if left == 0 {
      w' := w;
      Stays(file, w);
      assert file[..w.client.fileStart] == file;
    } else {
      var w1 := Round(file, w, memory);
      if left < PACKET_DATA_SIZE {
        w' := w1;
      } else {
        w' := RoundsSuffice(file, w1, memory);
        ReachesThen(file, w, w1, w', 3, 3 * CeilDiv(left - PACKET_DATA_SIZE));
      }
    }
  }

  lemma EndsByData(file: seq<Byte>, w: World)
    requires Inv(file, w) && w.client.written == file && |file| % PACKET_DATA_SIZE != 0
    requires w.client.phase.Finished? || (w.client.phase.Transferring? && |file| == w.client.fileStart)
    ensures w.client.phase.Finished? && w.client.phase.last.kind == Ack
  {
  }

  /** The handshake that opens every download. */
  lemma Handshake(file: seq<Byte>, memory: seq<Byte>) returns (w: World, synack: Packet)
    requires |memory| == PACKET_DATA_SIZE
    ensures Inv(file, w) && Reaches(file, INITIAL, w, 3)
    ensures w.client.phase.Transferring? && w.client.fileStart == 0
    ensures synack in w.toClient && synack.kind == SynAck
  {
    var syn := SynPacket(memory);
    var w1 := Apply(file, INITIAL, SendSyn(memory));
    OneStep(file, INITIAL, SendSyn(memory));
    var w2 := Apply(file, w1, ServeSyn(syn, memory));
    OneStep(file, w1, ServeSyn(syn, memory));
    synack := syn.(kind := SynAck, data := memory);
    var e := Received(synack);
    w := Apply(file, w2, Arrive(e));
    OneStep(file, w2, Arrive(e));
    ReachesThen(file, INITIAL, w1, w2, 1, 1);
    ReachesThen(file, INITIAL, w2, w, 2, 1);
    InvReaches(file, INITIAL, w, 3);
  }

  /** Whatever has happened so far, `ceil(left / 1024)` successful rounds complete the output. */
  lemma CompletesFromAnywhere(file: seq<Byte>, w: World)
    requires Reachable(file, w) && w.client.phase.Transferring?
    ensures exists w' ::
              && Reaches(file, w, w', 3 * CeilDiv(Left(file, w.client)))
              && w'.client.written == file
              && (|file| % PACKET_DATA_SIZE != 0 ==> w'.client.phase.Finished?)
  {
    var n: nat :| Reaches(file, INITIAL, w, n);
    InvReaches(file, INITIAL, w, n);
    var w' := RoundsSuffice(file, w, seq(PACKET_DATA_SIZE, _ => 0 as Byte));
    if |file| % PACKET_DATA_SIZE != 0 {
      EndsByData(file, w');
    }
  }

  /** A synack that arrives once more after the handshake ends any download with nothing written. */
  lemma LateSynackEndsEarly(file: seq<Byte>)
    ensures exists w :: Reachable(file, w) && w.client.phase.Finished? && w.client.written == []
  {
    var memory := seq(PACKET_DATA_SIZE, _ => 0 as Byte);
    var w0, synack := Handshake(file, memory);
    var w := Apply(file, w0, Arrive(Received(synack)));
    OneStep(file, w0, Arrive(Received(synack)));
    ReachesThen(file, INITIAL, w0, w, 3, 1);
    InvReaches(file, INITIAL, w, 4);
  }

  /** Completion: a download can end on a packet of the file exactly when the file's size is
      not a multiple of 1024, and then it holds the whole file. */
  lemma CompletionIff(file: seq<Byte>)
    ensures (exists w :: Reachable(file, w) && w.client.phase.Finished? && w.client.phase.last.kind == Ack)
            <==> |file| % PACKET_DATA_SIZE != 0
  {
    if w :| Reachable(file, w) && w.client.phase.Finished? && w.client.phase.last.kind == Ack {
      var n: nat :| Reaches(file, INITIAL, w, n);
      InvReaches(file, INITIAL, w, n);
    }
    if |file| % PACKET_DATA_SIZE != 0 {
      var memory := seq(PACKET_DATA_SIZE, _ => 0 as Byte);
      var w0, synack := Handshake(file, memory);
      var w := RoundsSuffice(file, w0, memory);
      EndsByData(file, w);
      ReachesThen(file, INITIAL, w0, w, 3, 3 * CeilDiv(|file|));
      assert Reachable(file, w);
    }
  }

  // ---------------------------------------------------------------- every run

  /** The step hands the client a packet of the file that it was waiting for. */
  predicate Takes(c: Client, step: Step) {
    && step.Arrive? && step.e.Received? && c.phase.Transferring?
    && step.e.p.packetNumber == c.packetNumber && step.e.p.kind == Ack
  }

  /** `w'` can be reached from `w` in `n` steps, of which `k` hand over such packets. */
  ghost predicate ReachesTaking(file: seq<Byte>, w: World, w': World, n: nat, k: nat)
    decreases n
  {
    if n == 0 then w == w' && k == 0
    else
      exists step ::
        && Enabled(file, w, step)
        && (if Takes(w.client, step) then k > 0 && ReachesTaking(file, Apply(file, w, step), w', n - 1, k - 1)
            else ReachesTaking(file, Apply(file, w, step), w', n - 1, k))
  }

  /** Every run takes some number of them. */
  lemma {:induction false} TakesSome(file: seq<Byte>, w: World, w': World, n: nat)
    requires Reaches(file, w, w', n)
    ensures exists k: nat :: ReachesTaking(file, w, w', n, k)
    decreases n
  {
    if n == 0 {
      assert ReachesTaking(file, w, w', 0, 0);
    } else {
      var step :| Enabled(file, w, step) && Reaches(file, Apply(file, w, step), w', n - 1);
      TakesSome(file, Apply(file, w, step), w', n - 1);
      var k: nat :| ReachesTaking(file, Apply(file, w, step), w', n - 1, k);
      assert ReachesTaking(file, w, w', n, if Takes(w.client, step) then k + 1 else k);
    }
  }

  /** What one step does to a transferring client. */
  lemma StepTakes(file: seq<Byte>, w: World, step: Step)
    requires Inv(file, w) && Enabled(file, w, step) && w.client.phase.Transferring?
    ensures var c, c' := w.client, Apply(file, w, step).client;
            && !c'.phase.Connecting?
            && (Takes(c, step) ==> c.fileStart < |file|)
            && (c'.phase.Transferring? ==>
                  c'.fileStart == if Takes(c, step) then c.fileStart + PACKET_DATA_SIZE else c.fileStart)
            && (!c'.phase.Transferring? ==>
                  if Takes(c, step) then c'.written == file && |file| <= c.fileStart + PACKET_DATA_SIZE
                  else c'.written == file[..c.fileStart])
  {
    InvStep(file, w, step);
  }

  lemma {:induction false} Taking(file: seq<Byte>, w: World, w': World, n: nat, k: nat)
    requires Inv(file, w) && !w.client.phase.Connecting? && ReachesTaking(file, w, w', n, k)
    ensures !w.client.phase.Transferring? ==> k == 0 && w'.client.written == w.client.written
    ensures w.client.phase.Transferring? ==>
              && w'.client.written == file[..Min(|file|, w.client.fileStart + PACKET_DATA_SIZE * k)]
              && (k > 0 ==> w.client.fileStart + PACKET_DATA_SIZE * (k - 1) < |file|)
    decreases n
  {
    hide Inv, Enabled, Apply, Takes;
    if n > 0 {
      var step :|
        && Enabled(file, w, step)
        && (if Takes(w.client, step) then k > 0 && ReachesTaking(file, Apply(file, w, step), w', n - 1, k - 1)
            else ReachesTaking(file, Apply(file, w, step), w', n - 1, k));
      InvStep(file, w, step);
      if w.client.phase.Transferring? {
        StepTakes(file, w, step);
      } else {
        StaysOver(file, w, step);
      }
      Taking(file, Apply(file, w, step), w', n - 1, if Takes(w.client, step) then k - 1 else k);
    }
    ClientStands(file, w);
    assert file[..|file|] == file;
  }

  lemma StaysOver(file: seq<Byte>, w: World, step: Step)
    requires Enabled(file, w, step) && (w.client.phase.Finished? || w.client.phase.GaveUp?)
    ensures Apply(file, w, step).client == w.client && !Takes(w.client, step)
  {
  }

  lemma ClientStands(file: seq<Byte>, w: World)
    requires Inv(file, w)
    ensures w.client.phase.Transferring? ==>
              w.client.fileStart <= |file| && w.client.written == file[..w.client.fileStart]
  {
  }

  /** Whatever is lost, repeated or interleaved: after `k` accepted packets of the file the output
      has grown by `k` chunks, there are never more than `ceil(left / 1024)` of them, and the
      output is whole exactly when that many were accepted. */
  lemma EveryRunCompletes(file: seq<Byte>, w: World, w': World, n: nat, k: nat)
    requires Reachable(file, w) && w.client.phase.Transferring? && ReachesTaking(file, w, w', n, k)
    ensures w'.client.written == file[..Min(|file|, w.client.fileStart + PACKET_DATA_SIZE * k)]
    ensures k <= CeilDiv(Left(file, w.client))
    ensures w'.client.written == file <==> k == CeilDiv(Left(file, w.client))
  {
    var m: nat :| Reaches(file, INITIAL, w, m);
    InvReaches(file, INITIAL, w, m);
    Taking(file, w, w', n, k);
    ClientStands(file, w);
    CeilIs(Left(file, w.client), k);
    assert file[..|file|] == file;
  }

  lemma CeilIs(left: nat, k: nat)
    requires k > 0 ==> PACKET_DATA_SIZE * (k - 1) < left
    ensures k <= CeilDiv(left)
    ensures k == CeilDiv(left) <==> left <= PACKET_DATA_SIZE * k
  {
  }
}
