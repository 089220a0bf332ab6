/**
 Whole runs of a live transfer: what a view request's TCP client receives.
 */
module LiveRuns {
  import opened Wrappers
  import opened Packets
  import opened LiveTransfer

  ghost predicate IsRun(q: Request, file: seq<Byte>, run: seq<Live>) {
    && run != []
    && (exists data :: run[0] == Opened(q, data))
    && forall i, j :: 0 <= i && j == i + 1 && j < |run| ==> Next(file, run[i], run[j])
  }

  /** The invariant holds along every run, and each step spends some of what remains. */
  lemma {:induction false} InvAlong(q: Request, file: seq<Byte>, run: seq<Live>, i: nat)
    requires Served(q, file) && IsRun(q, file, run) && i < |run|
    ensures Inv(run[i], q, file)
    ensures 0 <= Remaining(run[i], q, file) <= 2 * CeilDiv(RangeLength(q, file)) + 1 - i
    decreases i
  {
    hide Inv, Next, Served, CeilDiv, RangeLength;
    if i == 0 {
      var data :| run[0] == Opened(q, data);
      OpenedInv(q, file, data);
    } else {
      InvAlong(q, file, run, i - 1);
      assert Next(file, run[i - 1], run[i]);
      NextKeeps(q, file, run[i - 1], run[i]);
    }
  }

  /** However many packets are lost, at every moment of every run: never more than one packet
      is under way, at most `ceil(L / 1024)` data packets have been sent, and after `k`
      forwarded packets what the TCP client has received starts with the first
      `min(1024 k, L)` bytes of the range. */
  lemma ViewSafety(q: Request, file: seq<Byte>, run: seq<Live>, i: nat)
    requires Served(q, file) && IsRun(q, file, run) && i < |run|
    ensures |run[i].inFlight| <= 1
    ensures run[i].sent <= CeilDiv(RangeLength(q, file))
    ensures |run[i].tcp| == PACKET_DATA_SIZE * run[i].forwarded
    ensures var n := Min(PACKET_DATA_SIZE * run[i].forwarded, RangeLength(q, file));
            run[i].tcp[..n] == file[First(q)..First(q) + n]
  {
    InvAlong(q, file, run, i);
  }

  /** No run is longer than `2 ceil(L / 1024) + 1` steps. */
  lemma ViewEnds(q: Request, file: seq<Byte>, run: seq<Live>)
    requires Served(q, file) && IsRun(q, file, run)
    ensures |run| - 1 <= 2 * CeilDiv(RangeLength(q, file)) + 1
  {
    InvAlong(q, file, run, |run| - 1);
  }

  /** The TCP client has the whole range, in order, and the connection was closed exactly
      when the range's length is not a multiple of 1024. */
  ghost predicate Complete(s: Live, q: Request, file: seq<Byte>)
    requires Served(q, file)
  {
    var len := RangeLength(q, file);
    && s.sent == s.forwarded == CeilDiv(len)
    && |s.tcp| >= len && s.tcp[..len] == file[First(q)..Last(q, |file|) + 1]
    && (s.closed <==> len % PACKET_DATA_SIZE != 0)
  }

  /** A loss-free transfer that has come to rest has sent exactly `ceil(L / 1024)` packets
      and delivered the whole range. */
  lemma ViewCompletes(q: Request, file: seq<Byte>, run: seq<Live>, i: nat)
    requires Served(q, file) && IsRun(q, file, run) && i < |run|
    requires !run[i].lossy && run[i].inFlight == multiset{}
    ensures Complete(run[i], q, file)
  {
    InvAlong(q, file, run, i);
    CeilBounds(RangeLength(q, file), run[i].forwarded);
  }

  // ---------------------------------------------------------------- in the request's own terms

  /** The bytes a request asks for: all of the file, a range with both its ends, or, if the end is
      missing, zero or behind the file, everything from the start of the range on. */
  function Wanted(q: Request, file: seq<Byte>): seq<Byte> {
    match q
    case Whole => file
    case Range(start, end) =>
      if !(0 <= start < |file|) then []
      else if OpenEnd(end, |file|) then file[start..]
      else if start <= end then file[start..end + 1]
      else []
  }

  predicate OpenEnd(end: int, size: nat) {
    end == -1 || end == 0 || end >= size
  }

  /** Which requests these results are about: something is wanted. */
  lemma ServedIff(q: Request, file: seq<Byte>)
    ensures Served(q, file) <==> Wanted(q, file) != []
  {
  }

  /** Where nothing is wanted, nothing is answered. */
  lemma UnservedIsSilence(q: Request, file: seq<Byte>, data: seq<Byte>, memory: seq<Byte>)
    requires !Served(q, file) && |memory| == PACKET_DATA_SIZE && Answerable(FirstAck(q, data), |file|)
    ensures Answer(file, FirstAck(q, data), SynAck, memory) == None
  {
  }

  lemma WantedIsRange(q: Request, file: seq<Byte>)
    requires Served(q, file)
    ensures Wanted(q, file) == file[First(q)..Last(q, |file|) + 1] && |Wanted(q, file)| == RangeLength(q, file)
  {
  }

  /** What the TCP client has got at any moment begins with the wanted bytes, as far as they were
      forwarded; and every data packet under way names the size of the file. */
  lemma ViewDelivers(q: Request, file: seq<Byte>, run: seq<Live>, i: nat)
    requires Served(q, file) && IsRun(q, file, run) && i < |run|
    ensures var n := Min(PACKET_DATA_SIZE * run[i].forwarded, |Wanted(q, file)|);
            0 <= n <= |run[i].tcp| && run[i].tcp[..n] == Wanted(q, file)[..n]
    ensures forall p :: p in run[i].inFlight && p.kind == SynAck ==> p.contentLength == |file|
  {
    ViewSafety(q, file, run, i);
    InvAlong(q, file, run, i);
    WantedIsRange(q, file);
    var n := Min(PACKET_DATA_SIZE * run[i].forwarded, |Wanted(q, file)|);
    assert Wanted(q, file)[..n] == file[First(q)..First(q) + n];
  }

  /** A loss-free transfer at rest has delivered all of them, in as many packets as they take. */
  lemma ViewDeliversAll(q: Request, file: seq<Byte>, run: seq<Live>, i: nat)
    requires Served(q, file) && IsRun(q, file, run) && i < |run|
    requires !run[i].lossy && run[i].inFlight == multiset{}
    ensures var w := Wanted(q, file);
            && run[i].sent == run[i].forwarded == CeilDiv(|w|)
            && |run[i].tcp| >= |w| && run[i].tcp[..|w|] == w
            && (run[i].closed <==> |w| % PACKET_DATA_SIZE != 0)
  {
    ViewCompletes(q, file, run, i);
    WantedIsRange(q, file);
  }

  /** Any run can be continued, without further loss, to a moment of rest. */
  lemma {:induction false} ComesToRest(q: Request, file: seq<Byte>, run: seq<Live>) returns (more: seq<Live>)
    requires Served(q, file) && IsRun(q, file, run)
    ensures run <= more && IsRun(q, file, more)
    ensures more[|more| - 1].inFlight == multiset{} && more[|more| - 1].lossy == run[|run| - 1].lossy
    decreases 2 * CeilDiv(RangeLength(q, file)) + 2 - |run|
  {
    assert run != [];
    hide IsRun, Served, CeilDiv, Next, RangeLength;
    var s := run[|run| - 1];
    InvAlong(q, file, run, |run| - 1);
    if s.inFlight == multiset{} {
      more := run;
    } else {
      var s' := LosslessStep(q, file, s, seq(PACKET_DATA_SIZE, _ => 0 as Byte));
      Extended(q, file, run, s');
      more := ComesToRest(q, file, run + [s']);
    }
  }

  lemma Extended(q: Request, file: seq<Byte>, run: seq<Live>, s': Live)
    requires Served(q, file) && IsRun(q, file, run) && Next(file, run[|run| - 1], s')
    ensures IsRun(q, file, run + [s'])
    ensures |run| - 1 <= 2 * CeilDiv(RangeLength(q, file))
  {
    var longer := run + [s'];
    assert longer[0] == run[0];
    ViewEnds(q, file, longer);
  }

  /** Every request for a range inside the file is served completely by some run. */
  lemma ViewServed(q: Request, file: seq<Byte>)
    requires Served(q, file)
    ensures exists run :: IsRun(q, file, run) && Complete(run[|run| - 1], q, file)
  {
    var run := [Opened(q, [])];
    var more := ComesToRest(q, file, run);
    ViewCompletes(q, file, more, |more| - 1);
  }
}
