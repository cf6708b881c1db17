/** What a transaction of the clustering protocol can do when nobody stands in its way: from
    any state it runs, in one round or two, to the commit of its assignment. */
module ClusterProgress {
  import opened Options
  import opened Ordering
  import opened Chronology
  import opened Clustering
  import opened ClusterInvariants
  import opened ClusterComponents
  import opened ClusterProtocol

  // ---- Somebody can always be elected ----

  lemma {:induction false} RepresentativeExists(g: Articles, ids: set<Id>) returns (rep: Id)
    requires ids <= g.Keys && ids != {}
    ensures IsRepresentative(g, ids, rep)
  {
    var x :| x in ids;
    var rest := ids - {x};
    if rest == {} {
      rep := x;
      assert ids == {x};
    } else {
      rep := RepresentativeExists(g, rest);
      rep := if Precedes(g[x], g[rep]) then x else rep;
      assert forall y :: y in ids ==> y == x || y in rest;
    }
  }

  /** Some clustered article is of an oldest cluster. */
  lemma {:induction false} EarliestExists(g: Articles, ids: set<Id>) returns (m: Id)
    requires ClusterIds(g, ids) != {}
    ensures Earliest(g, ids, m)
    decreases |ids|
  {
    StrictTotalOrder();
    var c :| c in ClusterIds(g, ids);
    var x :| x in ids && x in g && g[x].cluster == Some(c);
    var rest := ids - {x};
    m := x;
    if ClusterIds(g, rest) == {} {
      assert forall y :: y in rest && Clustered(g, y) ==> g[y].cluster.value in ClusterIds(g, rest);
    } else {
      m := EarliestExists(g, rest);
      m := if NotBefore(g, m, x) then m else x;
    }
  }

  lemma SurvivorExists(g: Articles, ids: set<Id>, newId: Id) returns (id: Id)
    ensures Surviving(g, ids, newId, id)
  {
    if ClusterIds(g, ids) == {} {
      id := newId;
    } else {
      var m := EarliestExists(g, ids);
      id := g[m].cluster.value;
    }
  }

  // ---- One transaction's own steps ----

  /** Steps of transaction `t` alone, none of them an abort. */
  ghost predicate Solo(ss: seq<State>, events: seq<Event>, t: TxnId) {
    && |ss| == |events| + 1
    && forall i :: 0 <= i < |events| ==>
         && events[i].t == t && !events[i].action.AbortAction? && !events[i].action.GiveUpAction?
         && Next(ss[i], ss[i + 1], t, events[i].action)
  }

  ghost predicate Gets(s: State, s': State, t: TxnId) {
    exists ss, events :: Solo(ss, events, t) && ss[0] == s && ss[|events|] == s'
  }

  lemma GetsNowhere(s: State, t: TxnId)
    ensures Gets(s, s, t)
  {
    var events: seq<Event> := [];
    assert Solo([s], events, t) && [s][|events|] == s;
  }

  lemma GetsOn(s: State, mid: State, s': State, t: TxnId, action: Action)
    requires Gets(s, mid, t) && Next(mid, s', t, action) && !action.AbortAction? && !action.GiveUpAction?
    ensures Gets(s, s', t)
  {
    var ss, events :| Solo(ss, events, t) && ss[0] == s && ss[|events|] == mid;
    assert Solo(ss + [s'], events + [Event(t, action)], t);
    assert (ss + [s'])[|events + [Event(t, action)]|] == s';
  }

  function With(s: State, t: TxnId, txn: Txn): State {
    s.(txns := s.txns[t := txn])
  }

  lemma WithAgain(s: State, t: TxnId, txn: Txn, next: Txn)
    ensures With(With(s, t, txn), t, next) == With(s, t, next) && With(s, t, txn).txns[t] == txn
    ensures With(s, t, txn).graph == s.graph
  {
    assert s.txns[t := txn][t := next] == s.txns[t := next];
  }

  /** Nobody else holds any of `ids`. */
  ghost predicate Free(s: State, t: TxnId, ids: set<Id>) {
    forall u :: u in s.txns && u != t ==> s.txns[u].held !! ids
  }

  /** It takes its locks one by one. */
  lemma {:induction false} LocksAll(start: State, s: State, t: TxnId, txn: Txn)
    requires txn.phase.Acquiring? && Free(s, t, txn.phase.todo) && Gets(start, With(s, t, txn), t)
    ensures Gets(start, With(s, t, txn.(held := txn.held + txn.phase.todo, phase := Acquiring({}))), t)
    decreases |txn.phase.todo|
  {
    var todo := txn.phase.todo;
    if todo == {} {
      assert txn.held + todo == txn.held;
    } else {
      var a :| a in todo;
      var next := txn.(held := txn.held + {a}, phase := Acquiring(todo - {a}));
      WithAgain(s, t, txn, next);
      assert LockOne(With(s, t, txn), With(s, t, next), t, a);
      GetsOn(start, With(s, t, txn), With(s, t, next), t, LockAction(a));
      LocksAll(start, s, t, next);
      assert next.held + next.phase.todo == txn.held + todo;
    }
  }

  /** One round: locks, cluster ids, members. */
  lemma PlaysRound(start: State, s: State, t: TxnId, txn: Txn) returns (next: Txn)
    requires txn.phase.Acquiring? && Free(s, t, txn.phase.todo) && Gets(start, With(s, t, txn), t)
    ensures Gets(start, With(s, t, next), t) && next.call == txn.call
    ensures
      var held := txn.held + txn.phase.todo;
      var more := Members(s.graph, ClusterIds(s.graph, held)) - held;
      next.held == held && next.phase == if more == {} then Closing else Acquiring(more)
  {
    LocksAll(start, s, t, txn);
    var locked := txn.(held := txn.held + txn.phase.todo, phase := Acquiring({}));
    var read := locked.(phase := Discovering(ClusterIds(s.graph, locked.held)));
    WithAgain(s, t, locked, read);
    GetsOn(start, With(s, t, locked), With(s, t, read), t, ReadClusterIdsAction);
    var todo := Members(s.graph, read.phase.clusters) - read.held;
    next := if todo == {} then read.(phase := Closing) else read.(round := read.round + 1, phase := Acquiring(todo));
    WithAgain(s, t, read, next);
    assert ReadMembers(With(s, t, read), With(s, t, next), t);
    GetsOn(start, With(s, t, read), With(s, t, next), t, ReadMembersAction);
  }

  /** The closure loop ends with the touched articles under lock. */
  lemma Closes(start: State, s: State, t: TxnId, call: Call) returns (txn: Txn)
    requires Free(s, t, Touched(s.graph, call.Seed()))
    requires Gets(start, With(s, t, Fresh(call, s.graph.Keys)), t)
    ensures Gets(start, With(s, t, txn), t) && txn.call == call && txn.phase.Closing?
    ensures txn.held == Touched(s.graph, call.Seed())
  {
    var g, seed := s.graph, call.Seed();
    var touched := Touched(g, seed);
    SeedInDomain(g, seed);
    TouchedIsClosed(g, seed);
    assert ClusterIds(g, seed * g.Keys) == ClusterIds(g, seed);
    txn := PlaysRound(start, s, t, Fresh(call, g.Keys));
    assert {} + seed * g.Keys == seed * g.Keys;
    assert Members(g, ClusterIds(g, seed)) <= touched;
    if txn.phase.Acquiring? {
      assert txn.held + txn.phase.todo == touched;
      txn := PlaysRound(start, s, t, txn);
      assert Members(g, ClusterIds(g, touched)) - touched == {};
    } else {
      assert txn.held == touched;
    }
  }

  /** And what it has locked it decides on and commits. */
  lemma Commits(start: State, s: State, t: TxnId, txn: Txn) returns (s': State)
    requires Gets(start, With(s, t, txn), t) && txn.phase.Closing?
    requires txn.held == Touched(s.graph, txn.call.Seed()) && !(txn.call.Seed() !! s.graph.Keys)
    ensures Gets(start, s', t) && Step(s.graph, txn.call, s'.graph)
    ensures s'.committed == s.committed + [txn.call] && s'.txns == s.txns - {t}
  {
    var g := s.graph;
    TouchedEmpty(g, txn.call.Seed());
    var rep := RepresentativeExists(g, txn.held);
    var id := SurvivorExists(g, txn.held, txn.call.newId);
    var decided := txn.(phase := Decided(id, rep));
    WithAgain(s, t, txn, decided);
    GetsOn(start, With(s, t, txn), With(s, t, decided), t, DecideAction(id, rep));
    var end := With(s, t, decided);
    s' := State(Stamp(g, txn.held, id, rep), end.txns - {t}, s.committed + [txn.call]);
    GetsOn(start, end, s', t, CommitAction);
    assert Assigned(g, txn.call.Seed(), txn.call.newId, id, rep, s'.graph);
    assert end.txns - {t} == s.txns - {t};
  }

  lemma Begins(s: State, t: TxnId, call: Call)
    requires t !in s.txns && FreshFor(s.graph, call.newId)
    requires forall u :: u in s.txns ==> s.txns[u].call.newId != call.newId
    ensures Gets(s, With(s, t, Fresh(call, s.graph.Keys)), t)
  {
    GetsNowhere(s, t);
    GetsOn(s, s, With(s, t, Fresh(call, s.graph.Keys)), t, BeginAction(call));
  }

  /** A call whose seed names an existing article, with a fresh id, while nobody else holds an
      article it touches: begun now, it can run without an abort to the commit of its
      assignment, whether or not it needs the second round. */
  lemma UncontendedCommits(s: State, t: TxnId, call: Call) returns (ss: seq<State>, events: seq<Event>)
    requires t !in s.txns && FreshFor(s.graph, call.newId)
    requires forall u :: u in s.txns ==> s.txns[u].call.newId != call.newId
    requires !(call.Seed() !! s.graph.Keys) && Free(s, t, Touched(s.graph, call.Seed()))
    ensures Solo(ss, events, t) && ss[0] == s
    ensures Step(s.graph, call, ss[|events|].graph)
    ensures ss[|events|].committed == s.committed + [call] && ss[|events|].txns == s.txns
  {
    Begins(s, t, call);
    var txn := Closes(s, s, t, call);
    var s' := Commits(s, s, t, txn);
    ss, events :| Solo(ss, events, t) && ss[0] == s && ss[|events|] == s';
    assert s.txns - {t} == s.txns;
  }

  /** Wherever a transaction has got to, once it is aborted and nobody else holds an article it
      touches, the retry can run to its commit. */
  lemma RetryCommits(s: State, t: TxnId) returns (aborted: State, ss: seq<State>, events: seq<Event>)
    requires t in s.txns && !(s.txns[t].call.Seed() !! s.graph.Keys)
    requires Free(s, t, Touched(s.graph, s.txns[t].call.Seed()))
    ensures Next(s, aborted, t, AbortAction)
    ensures Solo(ss, events, t) && ss[0] == aborted
    ensures Step(s.graph, s.txns[t].call, ss[|events|].graph)
    ensures ss[|events|].committed == s.committed + [s.txns[t].call] && ss[|events|].txns == s.txns - {t}
  {
    var call := s.txns[t].call;
    aborted := With(s, t, Fresh(call, s.graph.Keys));
    GetsNowhere(aborted, t);
    var txn := Closes(aborted, s, t, call);
    var s' := Commits(aborted, s, t, txn);
    ss, events :| Solo(ss, events, t) && ss[0] == aborted && ss[|events|] == s';
  }

  /** A call that names no existing article never decides: its transaction can only give up. */
  lemma HopelessGivesUp(s: State, t: TxnId)
    requires Inv(s) && t in s.txns && s.txns[t].call.Seed() !! s.graph.Keys
    ensures forall s', id, rep :: !Next(s, s', t, DecideAction(id, rep))
    ensures forall s' :: !Next(s, s', t, CommitAction)
    ensures Next(s, s.(txns := s.txns - {t}), t, GiveUpAction)
  {
    assert Holds(s.graph, s.txns[t]);
    TouchedEmpty(s.graph, s.txns[t].call.Seed());
  }

  // ---- Behaviours go on ----

  lemma BehaviourStarts(g: Articles)
    requires Unclustered(g)
    ensures Behaviour([State(g, map[], [])], [])
  {
  }

  lemma BehaviourContinues(ss: seq<State>, events: seq<Event>, more: seq<State>, steps: seq<Event>, t: TxnId)
    requires Behaviour(ss, events) && Solo(more, steps, t) && more[0] == ss[|events|]
    ensures Behaviour(ss + more[1..], events + steps)
    ensures (ss + more[1..])[|events + steps|] == more[|steps|]
  {
    var all, es := ss + more[1..], events + steps;
    forall i | 0 <= i < |es| ensures Next(all[i], all[i + 1], es[i].t, es[i].action) {
      if i < |events| {
        assert all[i] == ss[i] && all[i + 1] == ss[i + 1] && es[i] == events[i];
      } else {
        assert all[i] == more[i - |events|] && all[i + 1] == more[i - |events| + 1] && es[i] == steps[i - |events|];
      }
    }
  }

  /** Any behaviour can go on with any such call and have it committed next. */
  lemma BehaviourCommitsNext(ss: seq<State>, events: seq<Event>, t: TxnId, call: Call)
    returns (ss': seq<State>, events': seq<Event>)
    requires Behaviour(ss, events) && t !in ss[|events|].txns && FreshFor(ss[|events|].graph, call.newId)
    requires forall u :: u in ss[|events|].txns ==> ss[|events|].txns[u].call.newId != call.newId
    requires !(call.Seed() !! ss[|events|].graph.Keys)
    requires Free(ss[|events|], t, Touched(ss[|events|].graph, call.Seed()))
    ensures Behaviour(ss', events') && ss <= ss' && events <= events'
    ensures ss'[|events'|].committed == ss[|events|].committed + [call]
    ensures Step(ss[|events|].graph, call, ss'[|events'|].graph) && ss'[|events'|].txns == ss[|events|].txns
  {
    var more, steps := UncontendedCommits(ss[|events|], t, call);
    BehaviourContinues(ss, events, more, steps, t);
    ss', events' := ss + more[1..], events + steps;
  }

  /** The only id an assignment can bring in is the call's own. */
  lemma StepIds(g: Articles, call: Call, g': Articles)
    requires Step(g, call, g')
    ensures g'.Keys == g.Keys && ClusterIds(g', g'.Keys) <= ClusterIds(g, g.Keys) + {call.newId}
  {
    if !(call.Seed() !! g.Keys) {
      var id, rep :| Assigned(g, call.Seed(), call.newId, id, rep, g');
      var ids := Touched(g, call.Seed());
      assert id in ClusterIds(g, g.Keys) + {call.newId} by {
        if ClusterIds(g, ids) != {} {
          var m :| Earliest(g, ids, m) && g[m].cluster == Some(id);
          assert Earliest(g, ids, m);
        }
      }
    }
  }

  function NewIds(calls: seq<Call>): set<Id> {
    set c | c in calls :: c.newId
  }

  /** Each call names an existing article and brings an id of its own. */
  ghost predicate Callable(calls: seq<Call>, dom: set<Id>) {
    && (forall c :: c in calls ==> !(c.Seed() !! dom))
    && (forall i, j :: 0 <= i < j < |calls| ==> calls[i].newId != calls[j].newId)
  }

  /** Every such sequence of calls is the committed history of some behaviour, from any
      unclustered graph. */
  lemma {:induction false} AnyHistory(g: Articles, calls: seq<Call>) returns (ss: seq<State>, events: seq<Event>)
    requires Unclustered(g) && Callable(calls, g.Keys)
    ensures Behaviour(ss, events) && ss[0].graph == g
    ensures ss[|events|].committed == calls && ss[|events|].txns == map[]
    ensures ss[|events|].graph.Keys == g.Keys
    ensures ClusterIds(ss[|events|].graph, g.Keys) <= NewIds(calls)
    decreases |calls|
  {
    if calls == [] {
      BehaviourStarts(g);
      ss, events := [State(g, map[], [])], [];
    } else {
      var last := |calls| - 1;
      var prior, call := calls[..last], calls[last];
      assert calls == prior + [call];
      ss, events := AnyHistory(g, prior);
      var before := ss[|events|].graph;
      ss, events := BehaviourCommitsNext(ss, events, 0, call);
      StepIds(before, call, ss[|events|].graph);
    }
  }
}
