/** Whole behaviours of the clustering protocol. Whatever the interleaving, each commit is
    one atomic assignment of the committed graph, the closure loop locks at most twice, and
    clusters are the connected components of the committed calls. */
module ClusterBehaviours {
  import opened Options
  import opened Ordering
  import opened Clustering
  import opened ClusterInvariants
  import opened ClusterComponents
  import opened ClusterProtocol

  /** A transaction that reads the members of its clusters a second time finds none it has
      not locked: the loop takes at most two rounds. */
  lemma TwoRoundsSuffice(ss: seq<State>, events: seq<Event>, k: nat, t: TxnId)
    requires Behaviour(ss, events) && k <= |events| && t in ss[k].txns
    ensures ss[k].txns[t].round <= 2
    ensures ss[k].txns[t].round == 2 && ss[k].txns[t].phase.Discovering? ==>
      Members(ss[k].graph, ss[k].txns[t].phase.clusters) <= ss[k].txns[t].held
  {
    BehaviourKeepsInv(ss, events, k);
    var g, txn := ss[k].graph, ss[k].txns[t];
    assert Holds(g, txn);
    TouchedIsClosed(g, txn.call.Seed());
  }

  /** No step changes the membership of a cluster one of whose members another transaction
      holds. */
  lemma HeldClusterIsFrozen(ss: seq<State>, events: seq<Event>, k: nat, u: TxnId, a: Id)
    requires Behaviour(ss, events) && k < |events|
    requires u in ss[k].txns && u != events[k].t && a in ss[k].txns[u].held && Clustered(ss[k].graph, a)
    ensures a in ss[k + 1].graph && ss[k + 1].graph[a] == ss[k].graph[a]
    ensures Members(ss[k + 1].graph, {ss[k].graph[a].cluster.value})
      == Members(ss[k].graph, {ss[k].graph[a].cluster.value})
  {
    BehaviourKeepsInv(ss, events, k);
    var s, s', t := ss[k], ss[k + 1], events[k].t;
    assert Next(s, s', t, events[k].action);
    if events[k].action.CommitAction? {
      LockFreezesCluster(s.graph, s.txns[t], a);
    }
  }

  /** Every commit is the atomic assignment applied to the graph committed at that moment. */
  lemma CommitIsAtomic(ss: seq<State>, events: seq<Event>, k: nat)
    requires Behaviour(ss, events) && k < |events| && events[k].action.CommitAction?
    ensures events[k].t in ss[k].txns
    ensures FreshFor(ss[k].graph, ss[k].txns[events[k].t].call.newId)
    ensures Step(ss[k].graph, ss[k].txns[events[k].t].call, ss[k + 1].graph)
  {
    BehaviourKeepsInv(ss, events, k);
    var s, s', t := ss[k], ss[k + 1], events[k].t;
    assert Next(s, s', t, events[k].action);
    var txn := s.txns[t];
    assert Holds(s.graph, txn);
    TouchedEmpty(s.graph, txn.call.Seed());
    assert Assigned(s.graph, txn.call.Seed(), txn.call.newId, txn.phase.finalId, txn.phase.rep, s'.graph);
  }

  /** The committed history is a sequential run that ends in the committed graph. */
  lemma {:induction false} Serializable(ss: seq<State>, events: seq<Event>, k: nat) returns (gs: seq<Articles>)
    requires Behaviour(ss, events) && k <= |events|
    ensures Run(gs, ss[k].committed) && gs[0] == ss[0].graph && gs[|ss[k].committed|] == ss[k].graph
  {
    if k == 0 {
      gs := [ss[0].graph];
    } else {
      gs := Serializable(ss, events, k - 1);
      assert Next(ss[k - 1], ss[k], events[k - 1].t, events[k - 1].action);
      if events[k - 1].action.CommitAction? {
        var t := events[k - 1].t;
        CommitIsAtomic(ss, events, k - 1);
        RunExtends(gs, ss[k - 1].committed, ss[k - 1].txns[t].call, ss[k].graph);
        gs := gs + [ss[k].graph];
      }
    }
  }

  /** Under any interleaving, clusters are the components of the committed calls and each
      has one correctly elected representative. */
  lemma InterleavedClustersAreComponents(ss: seq<State>, events: seq<Event>, k: nat, a: Id, b: Id)
    requires Behaviour(ss, events) && k <= |events|
    ensures Together(ss[k].graph, a, b) <==> Connected(SeedLinks(ss[k].committed, ss[0].graph.Keys), a, b)
    ensures WellElected(ss[k].graph)
  {
    var gs := Serializable(ss, events, k);
    ClustersAreComponents(gs, ss[k].committed, a, b);
    UnclusteredIsWellElected(gs[0]);
    RunKeepsWellElected(gs, ss[k].committed);
  }

  /** So in every reachable graph each cluster has one marked article, and it ranks first by
      date and then by the credibility of its source. */
  lemma ReachableRepresentative(ss: seq<State>, events: seq<Event>, k: nat, c: Id) returns (rep: Id)
    requires Behaviour(ss, events) && k <= |events| && c in ClusterIds(ss[k].graph, ss[k].graph.Keys)
    ensures SoleRepresentative(ss[k].graph, c, rep)
  {
    InterleavedClustersAreComponents(ss, events, k, c, c);
    rep := WellElectedRanks(ss[k].graph, c);
  }
}
