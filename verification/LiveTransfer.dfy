/**
 The transfer the video server itself runs: `multiplex_udp` of main.c on both ends. No state
 is kept between packets; one packet per view request travels back and forth and carries the
 whole progress of the transfer.
 */
module LiveTransfer {
  import opened Wrappers
  import opened Packets

  /** What one call of `multiplex_udp` does with one packet. */
  datatype Effect = Effect(reply: Option<Packet>, toTcp: seq<Byte>, close: bool)

  const NOTHING: Effect := Effect(None, [], false)

  /** The requester's next `ack`. Its data array is blank. */
  function NextAck(p: Packet, blank: seq<Byte>): Packet {
    p.(kind := Ack, ackNumber := p.ackNumber + 1, packetNumber := p.packetNumber + 1,
       startByte := p.startByte + PACKET_DATA_SIZE, data := blank)
  }

  ghost function Handle(file: seq<Byte>, p: Packet, memory: seq<Byte>): Effect
    requires |memory| == PACKET_DATA_SIZE && (p.kind == Ack ==> Answerable(p, |file|))
  {
    match p.kind
    case Ack => Effect(Answer(file, p, SynAck, memory), [], false)
    case SynAck =>
      if p.dataSize < PACKET_DATA_SIZE then Effect(None, p.data, true)
      else Effect(Some(NextAck(p, memory)), p.data, false)
    case Syn => NOTHING
    case Fin => NOTHING
    case Other => NOTHING
  }

  /** `multiplex_udp` on a packet that has arrived. On the requester's side all 1024 bytes of
      the packet go to the TCP client, however few of them carry data. */
  method MultiplexUdp(file: seq<Byte>, p: Packet, memory: seq<Byte>) returns (effect: Effect)
    requires |memory| == PACKET_DATA_SIZE && (p.kind == Ack ==> Answerable(p, |file|))
    ensures effect == Handle(file, p, memory)
  {
    if p.kind == Ack {
      var reply := TransferFile(file, p, SynAck, memory);
      return Effect(reply, [], false);
    } else if p.kind == SynAck {
      if p.dataSize < PACKET_DATA_SIZE {
        return Effect(None, p.data, true);
      }
      var ack := p.(data := memory);
      ack := ack.(ackNumber := ack.ackNumber + 1);
      ack := ack.(packetNumber := ack.packetNumber + 1);
      ack := ack.(startByte := ack.startByte + PACKET_DATA_SIZE);
      ack := ack.(kind := Ack);
      return Effect(Some(ack), p.data, false);
    }
    return NOTHING;
  }

  // ---------------------------------------------------------------- one view request

  /** A `/peer/view` request for a range, or for the whole file. */
  datatype Request = Whole | Range(start: int, end: int)

  function FirstAck(q: Request, data: seq<Byte>): Packet {
    match q
    case Whole => Packet(Ack, 0, 0, -1, 0, 0, false, 0, data)
    case Range(start, end) => Packet(Ack, 0, start, end, 0, 0, true, 0, data)
  }

  function First(q: Request): int {
    if q.Whole? then 0 else q.start
  }

  function Last(q: Request, size: int): int {
    NormalEnd(FirstAck(q, []), size)
  }

  /** The requested range lies inside the file. */
  ghost predicate Served(q: Request, file: seq<Byte>) {
    0 <= First(q) <= Last(q, |file|) < |file|
  }

  ghost function RangeLength(q: Request, file: seq<Byte>): (n: nat)
    requires Served(q, file)
    ensures n > 0
  {
    Last(q, |file|) - First(q) + 1
  }

  /** The packets under way for one request, what its TCP client has been sent, how many data
      packets were sent and forwarded, and whether anything was lost. */
  datatype Live = Live(inFlight: multiset<Packet>, tcp: seq<Byte>, sent: nat, forwarded: nat, closed: bool, lossy: bool)

  datatype Step =
    | Drop(p: Packet)                           // lost, or its TCP client is gone
    | Take(p: Packet, memory: seq<Byte>)        // multiplex_udp at whichever end it reaches

  ghost predicate Enabled(file: seq<Byte>, s: Live, step: Step) {
    && step.p in s.inFlight
    && (step.Take? ==> |step.memory| == PACKET_DATA_SIZE && (step.p.kind == Ack ==> Answerable(step.p, |file|)))
  }

  ghost function Apply(file: seq<Byte>, s: Live, step: Step): Live
    requires Enabled(file, s, step)
  {
    var rest := s.inFlight - multiset{step.p};
    if step.Drop? then s.(inFlight := rest, lossy := true)
    else
      var e := Handle(file, step.p, step.memory);
      Live(if e.reply == None then rest else rest + multiset{e.reply.value},
           s.tcp + e.toTcp,
           if step.p.kind == Ack && e.reply.Some? then s.sent + 1 else s.sent,
           if step.p.kind == SynAck then s.forwarded + 1 else s.forwarded,
           s.closed || e.close,
           s.lossy)
  }

  ghost predicate Next(file: seq<Byte>, s: Live, s': Live) {
    exists step :: Enabled(file, s, step) && s' == Apply(file, s, step)
  }

  function Opened(q: Request, data: seq<Byte>): Live {
    Live(multiset{FirstAck(q, data)}, [], 0, 0, false, false)
  }

  // ---------------------------------------------------------------- the invariant

  /** The request for chunk `k`: its position is the range's first byte plus 1024 k. */
  ghost predicate IsAck(p: Packet, q: Request, file: seq<Byte>, k: nat)
    requires Served(q, file)
  {
    && p.kind == Ack && p.ackNumber == p.packetNumber == k
    && p.startByte == First(q) + PACKET_DATA_SIZE * k
    && PACKET_DATA_SIZE * k <= RangeLength(q, file)
    && p.hasRange == q.Range?
    && NormalEnd(p, |file|) == Last(q, |file|)
    && (k > 0 ==> p.contentLength == |file|)
  }

  /** Chunk `k` of the range, on its way to the requester. */
  ghost predicate IsData(p: Packet, q: Request, file: seq<Byte>, k: nat)
    requires Served(q, file)
  {
    && p.kind == SynAck && p.ackNumber == p.packetNumber == k
    && p.startByte == First(q) + PACKET_DATA_SIZE * k
    && PACKET_DATA_SIZE * k < RangeLength(q, file)
    && p.hasRange == q.Range? && p.endByte == Last(q, |file|) && p.contentLength == |file|
    && p.dataSize == Min(PACKET_DATA_SIZE, RangeLength(q, file) - PACKET_DATA_SIZE * k)
    && |p.data| == PACKET_DATA_SIZE
    && p.data[..p.dataSize] == file[p.startByte..p.startByte + p.dataSize]
  }

  /** The TCP client has whole packets, and their leading bytes are the range. */
  ghost predicate Delivered(s: Live, q: Request, file: seq<Byte>)
    requires Served(q, file)
  {
    var n := Min(PACKET_DATA_SIZE * s.forwarded, RangeLength(q, file));
    && |s.tcp| == PACKET_DATA_SIZE * s.forwarded
    && s.tcp[..n] == file[First(q)..First(q) + n]
  }

  /** A packet under way. */
  ghost function UnderWay(s: Live): Packet
    requires s.inFlight != multiset{}
  {
    var p :| p in s.inFlight; p
  }

  ghost predicate InFlightOk(s: Live, q: Request, file: seq<Byte>)
    requires Served(q, file)
  {
    s.inFlight != multiset{} ==>
      var p := UnderWay(s);
      && s.inFlight == multiset{p} && !s.closed
      && if p.kind == Ack then IsAck(p, q, file, s.forwarded) && s.sent == s.forwarded
         else IsData(p, q, file, s.forwarded) && s.sent == s.forwarded + 1
  }

  ghost predicate CountsOk(s: Live, q: Request, file: seq<Byte>, chunks: nat)
    requires Served(q, file)
  {
    && s.forwarded <= s.sent <= chunks
    && (s.inFlight == multiset{} && !s.lossy ==> s.forwarded == chunks)
    && (s.closed <==> s.forwarded == chunks && RangeLength(q, file) % PACKET_DATA_SIZE != 0)
  }

  /** At most one packet is under way, and it belongs to the next chunk. */
  ghost predicate Inv(s: Live, q: Request, file: seq<Byte>)
    requires Served(q, file)
  {
    Delivered(s, q, file) && InFlightOk(s, q, file) && CountsOk(s, q, file, CeilDiv(RangeLength(q, file)))
  }

  lemma CeilBounds(n: nat, k: nat)
    ensures PACKET_DATA_SIZE * k < n ==> k + 1 <= CeilDiv(n)
    ensures PACKET_DATA_SIZE * k <= n ==> k <= CeilDiv(n)
    ensures PACKET_DATA_SIZE * k < n <= PACKET_DATA_SIZE * (k + 1) ==> CeilDiv(n) == k + 1
    ensures PACKET_DATA_SIZE * k == n ==> CeilDiv(n) == k && n % PACKET_DATA_SIZE == 0
    ensures PACKET_DATA_SIZE * k < n < PACKET_DATA_SIZE * (k + 1) ==> n % PACKET_DATA_SIZE != 0
    ensures k == CeilDiv(n) ==> n <= PACKET_DATA_SIZE * k
  {
  }

  lemma OpenedInv(q: Request, file: seq<Byte>, data: seq<Byte>)
    requires Served(q, file)
    ensures Inv(Opened(q, data), q, file)
  {
    var s := Opened(q, data);
    var p := FirstAck(q, data);
    assert IsAck(p, q, file, 0);
    CeilBounds(RangeLength(q, file), 0);
    assert s.inFlight == multiset{p};
  }

  lemma AnswerIsData(p: Packet, q: Request, file: seq<Byte>, k: nat, memory: seq<Byte>)
    requires Served(q, file) && IsAck(p, q, file, k) && |memory| == PACKET_DATA_SIZE
    ensures Answerable(p, |file|)
    ensures var r := Answer(file, p, SynAck, memory);
            if PACKET_DATA_SIZE * k < RangeLength(q, file) then r.Some? && IsData(r.value, q, file, k) else r == None
  {
  }

  lemma NextIsAck(p: Packet, q: Request, file: seq<Byte>, k: nat, blank: seq<Byte>)
    requires Served(q, file) && IsData(p, q, file, k) && p.dataSize == PACKET_DATA_SIZE
    ensures IsAck(NextAck(p, blank), q, file, k + 1)
  {
  }

  lemma DeliverOne(s: Live, s': Live, q: Request, file: seq<Byte>, p: Packet)
    requires Served(q, file) && Delivered(s, q, file) && IsData(p, q, file, s.forwarded)
    requires s'.tcp == s.tcp + p.data && s'.forwarded == s.forwarded + 1
    ensures Delivered(s', q, file)
  {
    var n := PACKET_DATA_SIZE * s.forwarded;
    var at := First(q);
    assert s.tcp == s.tcp[..n];
    assert s'.tcp[..n + p.dataSize] == s.tcp + p.data[..p.dataSize];
    assert file[at..at + n] + file[at + n..at + n + p.dataSize] == file[at..at + n + p.dataSize];
  }

  lemma ServeInv(s: Live, q: Request, file: seq<Byte>, p: Packet, memory: seq<Byte>)
    requires Served(q, file) && Inv(s, q, file) && s.inFlight == multiset{p}
    requires IsAck(p, q, file, s.forwarded) && |memory| == PACKET_DATA_SIZE
    requires Enabled(file, s, Take(p, memory))
    ensures Inv(Apply(file, s, Take(p, memory)), q, file)
  {
    var s' := Apply(file, s, Take(p, memory));
    AnswerIsData(p, q, file, s.forwarded, memory);
    CeilBounds(RangeLength(q, file), s.forwarded);
    var r := Answer(file, p, SynAck, memory);
    if r.Some? {
      assert s'.inFlight == multiset{r.value};
    } else {
      assert s'.inFlight == multiset{};
    }
  }

  lemma ForwardInv(s: Live, q: Request, file: seq<Byte>, p: Packet, memory: seq<Byte>)
    requires Served(q, file) && Inv(s, q, file) && s.inFlight == multiset{p}
    requires IsData(p, q, file, s.forwarded) && s.sent == s.forwarded + 1 && !s.closed && |memory| == PACKET_DATA_SIZE
    requires Enabled(file, s, Take(p, memory))
    ensures Inv(Apply(file, s, Take(p, memory)), q, file)
  {
    var s' := Apply(file, s, Take(p, memory));
    DeliverOne(s, s', q, file, p);
    CeilBounds(RangeLength(q, file), s.forwarded);
    CeilBounds(RangeLength(q, file), s.forwarded + 1);
    if p.dataSize < PACKET_DATA_SIZE {
      assert s'.inFlight == multiset{};
    } else {
      NextIsAck(p, q, file, s.forwarded, memory);
      assert s'.inFlight == multiset{NextAck(p, memory)};
    }
  }

  lemma InvStep(s: Live, q: Request, file: seq<Byte>, step: Step)
    requires Served(q, file) && Inv(s, q, file) && Enabled(file, s, step)
    ensures Inv(Apply(file, s, step), q, file)
  {
    assert s.inFlight != multiset{};
    var p := UnderWay(s);
    assert step.p == p;
    match step
    case Drop(_) =>
      assert Apply(file, s, step).inFlight == multiset{};
    case Take(_, memory) =>
      if IsAck(p, q, file, s.forwarded) {
        ServeInv(s, q, file, p, memory);
      } else {
        ForwardInv(s, q, file, p, memory);
      }
  }

  /** A transfer that is not at rest can always go on without losing anything, and comes to
      rest after at most `2 ceil(L / 1024) + 1` packets. */
  ghost function Remaining(s: Live, q: Request, file: seq<Byte>): int
    requires Served(q, file)
  {
    if s.inFlight == multiset{} then 0
    else 2 * CeilDiv(RangeLength(q, file)) + 1 - s.forwarded - s.sent
  }

  lemma Progress(q: Request, file: seq<Byte>, s: Live, memory: seq<Byte>)
    requires Served(q, file) && Inv(s, q, file) && s.inFlight != multiset{} && |memory| == PACKET_DATA_SIZE
    ensures exists p :: Enabled(file, s, Take(p, memory))
    ensures Remaining(s, q, file) > 0
  {
    var p := UnderWay(s);
    if p.kind == Ack {
      AnswerIsData(p, q, file, s.forwarded, memory);
    }
    assert Enabled(file, s, Take(p, memory));
  }

  lemma RemainingFalls(q: Request, file: seq<Byte>, s: Live, step: Step)
    requires Served(q, file) && Inv(s, q, file) && Enabled(file, s, step)
    ensures 0 <= Remaining(Apply(file, s, step), q, file) < Remaining(s, q, file)
  {
    InvStep(s, q, file, step);
    var s' := Apply(file, s, step);
    Progress(q, file, s, seq(PACKET_DATA_SIZE, _ => 0 as Byte));
    if s'.inFlight != multiset{} {
      Progress(q, file, s', seq(PACKET_DATA_SIZE, _ => 0 as Byte));
      assert s'.forwarded + s'.sent > s.forwarded + s.sent;
    }
  }

  lemma NextKeeps(q: Request, file: seq<Byte>, s: Live, s': Live)
    requires Served(q, file) && Inv(s, q, file) && Next(file, s, s')
    ensures Inv(s', q, file) && 0 <= Remaining(s', q, file) < Remaining(s, q, file)
  {
    var step :| Enabled(file, s, step) && s' == Apply(file, s, step);
    InvStep(s, q, file, step);
    RemainingFalls(q, file, s, step);
  }

  /** One more lossless step, while a packet is under way. */
  lemma LosslessStep(q: Request, file: seq<Byte>, s: Live, memory: seq<Byte>) returns (s': Live)
    requires Served(q, file) && Inv(s, q, file) && s.inFlight != multiset{} && |memory| == PACKET_DATA_SIZE
    ensures Next(file, s, s') && s'.lossy == s.lossy
  {
    Progress(q, file, s, memory);
    var p :| Enabled(file, s, Take(p, memory));
    s' := Apply(file, s, Take(p, memory));
  }
}
