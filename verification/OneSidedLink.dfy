/**
 A run that comes to rest on a wrong distance: only "peer" is configured with the cheap link
 to "u", and "u" has already learned a dearer route to "peer" through "via".
 */
module OneSidedLink {
  import opened PeerTables
  import opened Walks
  import opened Network
  import opened Optimality

  const ROW_U: Weights := map["via" := 5]
  const ROW_P: Weights := map["u" := 1, "via" := 5]
  const ROW_C: Weights := map["u" := 5, "peer" := 5]
  const ROW_U_LATER: Weights := map["via" := 5, "peer" := 10]

  const LINKS: Links := {
    Link("u", "via", 5), Link("peer", "u", 1), Link("peer", "via", 5), Link("via", "u", 5), Link("via", "peer", 5)
  }
  const POSTED: Message := Message("via", "u", ROW_C)

  const START: State := State(map["u" := ROW_U, "peer" := ROW_P, "via" := ROW_C], LINKS, {})
  const SENT: State := START.(sent := {POSTED})
  const REST: State := SENT.(tables := SENT.tables["u" := ROW_U_LATER])

  lemma StartIsInit()
    ensures Init(START)
  {
    var ls := set u, v | u in START.tables && v in START.tables[u] :: Link(u, v, START.tables[u][v]);
    assert forall l :: l in LINKS ==> l.a in START.tables && l.b in START.tables[l.a] && START.tables[l.a][l.b] == l.w;
    assert forall u, v :: u in START.tables && v in START.tables[u] ==> Link(u, v, START.tables[u][v]) in LINKS;
    assert ls == LINKS;
  }

  lemma FewFit(w: Weights, adv: Weights, me: string)
    requires w.Keys + (adv.Keys - {me}) <= {"u", "peer", "via"}
    ensures Fits(w, adv, me)
  {
    SubsetSize(w.Keys + (adv.Keys - {me}), {"u", "peer", "via"});
  }

  lemma PostStep()
    ensures Enabled(START, Post("via", "u")) && SENT == Apply(START, Post("via", "u"))
  {
  }

  lemma DeliverStep()
    ensures Enabled(SENT, Deliver(POSTED, ROW_U_LATER)) && REST == Apply(SENT, Deliver(POSTED, ROW_U_LATER))
  {
    var adv := ROW_C["via" := 0];
    assert Given(ROW_U, adv, "u", "via") == 5;
    assert Relax(ROW_U, 5, adv, "u", "via") == ROW_U_LATER;
    RelaxIsReceived(ROW_U, 5, adv, "u", "via");
  }

  lemma NothingShorter(w: Weights, given: int, adv: Weights, dst: Node, src: Node)
    requires adv.Keys - {dst} <= w.Keys
    requires forall v :: v in adv && v != dst && v != src ==> w[v] <= given + adv[v]
    ensures Relax(w, given, adv, dst, src) == w
  {
    assert Relax(w, given, adv, dst, src).Keys == w.Keys;
  }

  /** A snapshot that lists nothing new and offers nothing shorter changes nothing. */
  lemma Quiet(w: Weights, src: Node, dst: Node, row: Weights, w': Weights)
    requires src != dst && src in w && w[src] != 0
    requires w.Keys <= {"u", "peer", "via"} && row.Keys - {dst} <= w.Keys
    requires forall v :: v in row && v != dst && v != src ==> w[v] <= w[src] + row[v]
    requires TakenIn(w, Message(src, dst, row), w')
    ensures w' == w
  {
    var adv := row[src := 0];
    assert adv.Keys == row.Keys + {src};
    FewFit(w, adv, dst);
    NothingShorter(w, w[src], adv, dst, src);
  }

  lemma RestIsQuiescent()
    ensures Quiescent(REST)
  {
    hide TakenIn;
    forall u, v, w | u in REST.tables && v in REST.tables[u] && v in REST.tables
                     && TakenIn(REST.tables[v], Message(u, v, REST.tables[u]), w)
      ensures w == REST.tables[v]
    {
      if v == "u" {
        QuietAtU(u, w);
      } else if v == "peer" {
        QuietAtP(u, w);
      } else {
        QuietAtC(u, w);
      }
    }
  }

  lemma QuietAtU(u: Node, w: Weights)
    requires u in {"peer", "via"} && TakenIn(ROW_U_LATER, Message(u, "u", if u == "peer" then ROW_P else ROW_C), w)
    ensures w == ROW_U_LATER
  {
    hide TakenIn;
    if u == "peer" {
      Quiet(ROW_U_LATER, "peer", "u", ROW_P, w);
    } else {
      Quiet(ROW_U_LATER, "via", "u", ROW_C, w);
    }
  }

  lemma QuietAtP(u: Node, w: Weights)
    requires u in {"u", "via"} && TakenIn(ROW_P, Message(u, "peer", if u == "u" then ROW_U_LATER else ROW_C), w)
    ensures w == ROW_P
  {
    hide TakenIn;
    Quiet(ROW_P, u, "peer", if u == "u" then ROW_U_LATER else ROW_C, w);
  }

  lemma QuietAtC(u: Node, w: Weights)
    requires u in {"u", "peer"} && TakenIn(ROW_C, Message(u, "via", if u == "u" then ROW_U_LATER else ROW_P), w)
    ensures w == ROW_C
  {
    hide TakenIn;
    Quiet(ROW_C, u, "via", if u == "u" then ROW_U_LATER else ROW_P, w);
  }

  /** Quiescence alone does not give the true distances. */
  lemma OneSidedLinkStaysWrong()
    ensures exists run, i: nat :: IsRun(run) && i < |run| && Small(run[i]) && Quiescent(run[i]) && !Optimal(run[i])
  {
    hide TakenIn, Quiescent, Small, Apply, Enabled, Init;
    var run := [START, SENT, REST];
    StartIsInit();
    PostStep();
    DeliverStep();
    assert Next(START, SENT) && Next(SENT, REST);
    assert IsRun(run);
    RestIsQuiescent();
    RestIsSmall();
    OneHop(LINKS, Link("u", "peer", 1));
    assert !PairOptimal(REST, "u", "peer");
    assert run[2] == REST;
  }

  lemma RestIsSmall()
    ensures Small(REST)
  {
    assert REST.tables.Keys == {"u", "peer", "via"};
  }
}
