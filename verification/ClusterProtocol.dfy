/** Concurrent assignments. Each transaction locks articles one at a time, reads committed
    state in separate statements, and publishes its writes and drops its locks at commit.
    What each transaction relies on in each phase survives every step of every other. */
module ClusterProtocol {
  import opened Options
  import opened Ordering
  import opened Clustering
  import opened ClusterInvariants
  import opened ClusterComponents

  datatype Phase =
    | Acquiring(todo: set<Id>)
    | Discovering(clusters: set<Id>)
    | Closing
    | Decided(finalId: Id, rep: Id)

  datatype Txn = Txn(call: Call, round: nat, held: set<Id>, phase: Phase)

  type TxnId = nat

  /** `committed` records the calls in commit order. */
  datatype State = State(graph: Articles, txns: map<TxnId, Txn>, committed: seq<Call>)

  function Fresh(call: Call, dom: set<Id>): Txn {
    Txn(call, 1, {}, Acquiring(call.Seed() * dom))
  }

  // ---- Steps ----

  ghost predicate Begin(s: State, s': State, t: TxnId, call: Call) {
    && t !in s.txns
    && FreshFor(s.graph, call.newId)
    && (forall u :: u in s.txns ==> s.txns[u].call.newId != call.newId)
    && s' == s.(txns := s.txns[t := Fresh(call, s.graph.Keys)])
  }

  /** One node lock, granted only if nobody else holds it. */
  ghost predicate LockOne(s: State, s': State, t: TxnId, a: Id) {
    && t in s.txns && s.txns[t].phase.Acquiring? && a in s.txns[t].phase.todo
    && (forall u :: u in s.txns && u != t ==> a !in s.txns[u].held)
    && s' == s.(txns := s.txns[t := s.txns[t].(held := s.txns[t].held + {a},
                                                phase := Acquiring(s.txns[t].phase.todo - {a}))])
  }

  ghost predicate ReadClusterIds(s: State, s': State, t: TxnId) {
    && t in s.txns && s.txns[t].phase == Acquiring({})
    && s' == s.(txns := s.txns[t := s.txns[t].(phase := Discovering(ClusterIds(s.graph, s.txns[t].held)))])
  }

  ghost predicate ReadMembers(s: State, s': State, t: TxnId) {
    && t in s.txns && s.txns[t].phase.Discovering?
    && var txn := s.txns[t];
       var todo := Members(s.graph, txn.phase.clusters) - txn.held;
       s' == s.(txns := s.txns[t := if todo == {} then txn.(phase := Closing)
                                    else txn.(round := txn.round + 1, phase := Acquiring(todo))])
  }

  /** The last read, and the decision made from it. With nothing held there is no row to
      elect from and the transaction can only give up. */
  ghost predicate Decide(s: State, s': State, t: TxnId, id: Id, rep: Id) {
    && t in s.txns && s.txns[t].phase.Closing?
    && IsRepresentative(s.graph, s.txns[t].held, rep)
    && Surviving(s.graph, s.txns[t].held, s.txns[t].call.newId, id)
    && s' == s.(txns := s.txns[t := s.txns[t].(phase := Decided(id, rep))])
  }

  ghost predicate Commit(s: State, s': State, t: TxnId) {
    && t in s.txns && s.txns[t].phase.Decided?
    && var txn := s.txns[t];
       s' == State(Stamp(s.graph, txn.held, txn.phase.finalId, txn.phase.rep),
                   s.txns - {t},
                   s.committed + [txn.call])
  }

  /** A deadlock victim or a transient error: drop every lock and start over, same call. */
  ghost predicate Abort(s: State, s': State, t: TxnId) {
    && t in s.txns
    && s' == s.(txns := s.txns[t := Fresh(s.txns[t].call, s.graph.Keys)])
  }

  ghost predicate GiveUp(s: State, s': State, t: TxnId) {
    t in s.txns && s' == s.(txns := s.txns - {t})
  }

  datatype Action =
    | BeginAction(call: Call)
    | LockAction(a: Id)
    | ReadClusterIdsAction
    | ReadMembersAction
    | DecideAction(id: Id, rep: Id)
    | CommitAction
    | AbortAction
    | GiveUpAction

  ghost predicate Next(s: State, s': State, t: TxnId, action: Action) {
    match action
    case BeginAction(call) => Begin(s, s', t, call)
    case LockAction(a) => LockOne(s, s', t, a)
    case ReadClusterIdsAction => ReadClusterIds(s, s', t)
    case ReadMembersAction => ReadMembers(s, s', t)
    case DecideAction(id, rep) => Decide(s, s', t, id, rep)
    case CommitAction => Commit(s, s', t)
    case AbortAction => Abort(s, s', t)
    case GiveUpAction => GiveUp(s, s', t)
  }

  // ---- Invariant ----

  ghost predicate Holds(g: Articles, txn: Txn) {
    var seed := txn.call.Seed();
    && 1 <= txn.round <= 2
    && txn.held <= g.Keys
    && FreshFor(g, txn.call.newId)
    && match txn.phase
       case Acquiring(todo) =>
         if txn.round == 1 then txn.held + todo == seed * g.Keys
         else seed * g.Keys <= txn.held && txn.held + todo == Touched(g, seed)
       case Discovering(clusters) =>
         && txn.held == (if txn.round == 1 then seed * g.Keys else Touched(g, seed))
         && clusters == ClusterIds(g, txn.held)
       case Closing => txn.held == Touched(g, seed)
       case Decided(id, rep) =>
         && txn.held == Touched(g, seed)
         && IsRepresentative(g, txn.held, rep)
         && Surviving(g, txn.held, txn.call.newId, id)
  }

  ghost predicate Inv(s: State) {
    && (forall t :: t in s.txns ==> Holds(s.graph, s.txns[t]))
    && (forall t, u :: t in s.txns && u in s.txns && t != u ==>
          s.txns[t].held !! s.txns[u].held && s.txns[t].call.newId != s.txns[u].call.newId)
  }

  /** While anyone else holds an article of a cluster, a commit neither adds nor removes a
      member of that cluster. */
  lemma LockFreezesCluster(g: Articles, txn: Txn, a: Id)
    requires Holds(g, txn) && txn.phase.Decided?
    requires Clustered(g, a) && a !in txn.held
    ensures Members(Stamp(g, txn.held, txn.phase.finalId, txn.phase.rep), {g[a].cluster.value})
      == Members(g, {g[a].cluster.value})
    ensures Members(g, {g[a].cluster.value}) !! txn.held
    ensures g[a].cluster.value != txn.phase.finalId
  {
    var c := g[a].cluster.value;
    TouchedIsClosed(g, txn.call.Seed());
    SurvivorIsLocal(g, txn.held, txn.call.newId, txn.phase.finalId);
    assert a in Members(g, {c});
    assert forall b :: b in txn.held && b in g && g[b].cluster == Some(c) ==> Together(g, b, a);
    assert c !in ClusterIds(g, txn.held);
    StampMembers(g, txn.held, txn.call.newId, txn.phase.finalId, txn.phase.rep, c);
  }

  /** A set of articles nobody stamped, together with everything they are clustered with,
      reads the same after another transaction's commit. */
  lemma CommitFrame(g: Articles, txn: Txn, seed: set<Id>)
    requires Holds(g, txn) && txn.phase.Decided? && seed <= g.Keys && seed !! txn.held
    ensures
      var g' := Stamp(g, txn.held, txn.phase.finalId, txn.phase.rep);
      && Touched(g', seed) == Touched(g, seed)
      && Touched(g, seed) !! txn.held
      && ClusterIds(g', seed) == ClusterIds(g, seed)
  {
    var g' := Stamp(g, txn.held, txn.phase.finalId, txn.phase.rep);
    assert ClusterIds(g', seed) == ClusterIds(g, seed) by {
      assert forall a :: a in seed ==> g'[a] == g[a];
    }
    forall c | c in ClusterIds(g, seed) ensures Members(g', {c}) == Members(g, {c}) && Members(g, {c}) !! txn.held {
      var a :| a in seed && a in g && g[a].cluster == Some(c);
      LockFreezesCluster(g, txn, a);
    }
    var cs := ClusterIds(g, seed);
    forall b ensures b in Members(g', cs) <==> b in Members(g, cs) {
      if b in g && g[b].cluster.Some? { assert b in Members(g, {g[b].cluster.value}); }
      if b in g' && g'[b].cluster.Some? { assert b in Members(g', {g'[b].cluster.value}); }
    }
    assert Members(g', cs) == Members(g, cs);
    forall b | b in Members(g, cs) ensures b !in txn.held {
      assert b in Members(g, {g[b].cluster.value});
    }
  }

  /** What one transaction relies on survives another's commit. */
  lemma CommitKeepsOther(g: Articles, txn: Txn, other: Txn)
    requires Holds(g, txn) && txn.phase.Decided? && Holds(g, other)
    requires other.held !! txn.held && other.call.newId != txn.call.newId
    ensures Holds(Stamp(g, txn.held, txn.phase.finalId, txn.phase.rep), other)
  {
    var g' := Stamp(g, txn.held, txn.phase.finalId, txn.phase.rep);
    var seed := other.call.Seed();
    FreshIdStaysFresh(g, txn, other.call.newId);
    HeldReadsTheSame(g, g', other.held);
    if other.round == 2 || !other.phase.Acquiring? {
      CommitKeepsTouched(g, txn, other);
    }
    if other.phase.Decided? {
      RepresentativeSurvivesStamp(g, g', other.held, other.phase.rep);
      SurvivingFrame(g, g', other.held, other.call.newId, other.phase.finalId);
    }
  }

  lemma HeldReadsTheSame(g: Articles, g': Articles, ids: set<Id>)
    requires ids <= g.Keys == g'.Keys && forall a :: a in ids ==> g'[a] == g[a]
    ensures ClusterIds(g', ids) == ClusterIds(g, ids)
  {
  }

  lemma CommitKeepsTouched(g: Articles, txn: Txn, other: Txn)
    requires Holds(g, txn) && txn.phase.Decided?
    requires other.held !! txn.held && other.call.Seed() * g.Keys <= other.held
    ensures Touched(Stamp(g, txn.held, txn.phase.finalId, txn.phase.rep), other.call.Seed())
      == Touched(g, other.call.Seed())
  {
    var g' := Stamp(g, txn.held, txn.phase.finalId, txn.phase.rep);
    assert g'.Keys == g.Keys;
    SeedInDomain(g, other.call.Seed());
    SeedInDomain(g', other.call.Seed());
    CommitFrame(g, txn, other.call.Seed() * g.Keys);
  }

  lemma SeedInDomain(g: Articles, seed: set<Id>)
    ensures Touched(g, seed * g.Keys) == Touched(g, seed)
  {
    assert ClusterIds(g, seed * g.Keys) == ClusterIds(g, seed);
    assert (seed * g.Keys) * g.Keys == seed * g.Keys;
  }

  lemma SurvivingFrame(g: Articles, g': Articles, ids: set<Id>, newId: Id, id: Id)
    requires ids <= g.Keys == g'.Keys && forall a :: a in ids ==> g'[a] == g[a]
    requires Surviving(g, ids, newId, id)
    ensures Surviving(g', ids, newId, id)
  {
    assert ClusterIds(g', ids) == ClusterIds(g, ids);
    if ClusterIds(g, ids) != {} {
      var m :| Earliest(g, ids, m) && g[m].cluster == Some(id);
      assert Earliest(g, ids, m);
      assert Earliest(g', ids, m);
    }
  }

  lemma FreshIdStaysFresh(g: Articles, txn: Txn, newId: Id)
    requires Holds(g, txn) && txn.phase.Decided? && FreshFor(g, newId) && newId != txn.call.newId
    ensures FreshFor(Stamp(g, txn.held, txn.phase.finalId, txn.phase.rep), newId)
  {
    var g' := Stamp(g, txn.held, txn.phase.finalId, txn.phase.rep);
    TouchedIsClosed(g, txn.call.Seed());
    StampMembers(g, txn.held, txn.call.newId, txn.phase.finalId, txn.phase.rep, newId);
    SurvivorIsLocal(g, txn.held, txn.call.newId, txn.phase.finalId);
    MembersOf(g, newId);
    MembersOf(g', newId);
  }

  lemma CommitKeepsInv(s: State, s': State, t: TxnId)
    requires Inv(s) && Commit(s, s', t)
    ensures Inv(s')
  {
    forall u | u in s'.txns ensures Holds(s'.graph, s'.txns[u]) {
      CommitKeepsOther(s.graph, s.txns[t], s.txns[u]);
    }
  }

  lemma ReadMembersKeepsInv(s: State, s': State, t: TxnId)
    requires Inv(s) && ReadMembers(s, s', t)
    ensures Inv(s')
  {
    var g, txn := s.graph, s.txns[t];
    var seed := txn.call.Seed();
    TouchedIsClosed(g, seed);
    SeedInDomain(g, seed);
    assert ClusterIds(g, seed * g.Keys) == ClusterIds(g, seed);
    var members := Members(g, txn.phase.clusters);
    assert members <= Touched(g, seed);
    assert txn.held + members == Touched(g, seed);
    assert txn.held + (members - txn.held) == txn.held + members;
    assert Holds(s'.graph, s'.txns[t]);
  }

  lemma LockKeepsInv(s: State, s': State, t: TxnId, a: Id)
    requires Inv(s) && LockOne(s, s', t, a)
    ensures Inv(s')
  {
    var txn := s.txns[t];
    assert (txn.held + {a}) + (txn.phase.todo - {a}) == txn.held + txn.phase.todo;
    assert Holds(s'.graph, s'.txns[t]);
  }

  lemma BeginKeepsInv(s: State, s': State, t: TxnId, call: Call)
    requires Inv(s) && Begin(s, s', t, call)
    ensures Inv(s')
  {
    assert Holds(s'.graph, s'.txns[t]);
  }

  lemma ReadClusterIdsKeepsInv(s: State, s': State, t: TxnId)
    requires Inv(s) && ReadClusterIds(s, s', t)
    ensures Inv(s')
  {
    var txn := s.txns[t];
    assert txn.held + {} == txn.held;
    assert Holds(s'.graph, s'.txns[t]);
  }

  lemma DecideKeepsInv(s: State, s': State, t: TxnId, id: Id, rep: Id)
    requires Inv(s) && Decide(s, s', t, id, rep)
    ensures Inv(s')
  {
    assert Holds(s'.graph, s'.txns[t]);
  }

  lemma AbortKeepsInv(s: State, s': State, t: TxnId)
    requires Inv(s) && (Abort(s, s', t) || GiveUp(s, s', t))
    ensures Inv(s')
  {
    if Abort(s, s', t) {
      assert Holds(s'.graph, s'.txns[t]);
    }
  }

  lemma NextKeepsInv(s: State, s': State, t: TxnId, action: Action)
    requires Inv(s) && Next(s, s', t, action)
    ensures Inv(s')
  {
    match action
    case BeginAction(call) => BeginKeepsInv(s, s', t, call);
    case LockAction(a) => LockKeepsInv(s, s', t, a);
    case ReadClusterIdsAction => ReadClusterIdsKeepsInv(s, s', t);
    case ReadMembersAction => ReadMembersKeepsInv(s, s', t);
    case DecideAction(id, rep) => DecideKeepsInv(s, s', t, id, rep);
    case CommitAction => CommitKeepsInv(s, s', t);
    case AbortAction => AbortKeepsInv(s, s', t);
    case GiveUpAction => AbortKeepsInv(s, s', t);
  }

  /** A transaction makes one call from its beginning to its end, and only its own steps move it. */
  lemma CallIsFixed(s: State, s': State, t: TxnId, action: Action, u: TxnId)
    requires Next(s, s', t, action) && u in s.txns
    ensures u in s'.txns ==> s'.txns[u].call == s.txns[u].call
    ensures u != t ==> u in s'.txns && s'.txns[u] == s.txns[u]
  {
  }

  // ---- Behaviours ----

  datatype Event = Event(t: TxnId, action: Action)

  ghost predicate Initial(s: State) {
    s.txns == map[] && s.committed == [] && Unclustered(s.graph)
  }

  ghost predicate Behaviour(ss: seq<State>, events: seq<Event>) {
    && |ss| == |events| + 1
    && Initial(ss[0])
    && forall i :: 0 <= i < |events| ==> Next(ss[i], ss[i + 1], events[i].t, events[i].action)
  }

  lemma {:induction false} BehaviourKeepsInv(ss: seq<State>, events: seq<Event>, k: nat)
    requires Behaviour(ss, events) && k <= |events|
    ensures Inv(ss[k])
  {
    if k > 0 {
      BehaviourKeepsInv(ss, events, k - 1);
      NextKeepsInv(ss[k - 1], ss[k], events[k - 1].t, events[k - 1].action);
    }
  }
}
