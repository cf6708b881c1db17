/** Runs of assignments, and the theorem that clusters are the connected components of the
    matches processed so far. */
module ClusterComponents {
  import opened Options
  import opened Ordering
  import opened Clustering
  import opened ClusterInvariants

  datatype Call = Call(self: Id, matches: set<Id>, newId: Id) {
    function Seed(): set<Id> { {self} + matches }
  }

  ghost predicate Step(g: Articles, call: Call, g': Articles) {
    if call.Seed() !! g.Keys then g' == g
    else exists id, rep :: Assigned(g, call.Seed(), call.newId, id, rep, g')
  }

  ghost predicate Run(gs: seq<Articles>, calls: seq<Call>) {
    |gs| == |calls| + 1 &&
    forall i :: 0 <= i < |calls| ==> FreshFor(gs[i], calls[i].newId) && Step(gs[i], calls[i], gs[i + 1])
  }

  // ---- Connectivity, independently of any graph state ----

  type Links = set<(Id, Id)>

  predicate Path(links: Links, p: seq<Id>) {
    |p| >= 2 && forall i :: 0 <= i < |p| - 1 ==> (p[i], p[i + 1]) in links
  }

  ghost predicate Connected(links: Links, a: Id, b: Id) {
    exists p :: Path(links, p) && p[0] == a && p[|p| - 1] == b
  }

  /** One call links every two existing articles it names. */
  function CallLinks(call: Call, dom: set<Id>): Links {
    set a, b | a in call.Seed() * dom && b in call.Seed() * dom :: (a, b)
  }

  function SeedLinks(calls: seq<Call>, dom: set<Id>): Links {
    if calls == [] then {}
    else SeedLinks(calls[..|calls| - 1], dom) + CallLinks(calls[|calls| - 1], dom)
  }

  /** The (self, match) pairs, and self with itself. */
  function MatchLinks(calls: seq<Call>, dom: set<Id>): Links {
    if calls == [] then {}
    else MatchLinks(calls[..|calls| - 1], dom) + StarLinks(calls[|calls| - 1], dom)
  }

  function StarLinks(call: Call, dom: set<Id>): Links {
    var ends := ({call.self} + call.matches) * dom;
    (set b | b in ends :: (call.self, b)) + (set a | a in ends :: (a, call.self))
  }

  lemma LinkConnects(links: Links, a: Id, b: Id)
    requires (a, b) in links
    ensures Connected(links, a, b)
  {
    assert Path(links, [a, b]);
  }

  lemma ConnectedTransitive(links: Links, a: Id, b: Id, c: Id)
    requires Connected(links, a, b) && Connected(links, b, c)
    ensures Connected(links, a, c)
  {
    var p :| Path(links, p) && p[0] == a && p[|p| - 1] == b;
    var q :| Path(links, q) && q[0] == b && q[|q| - 1] == c;
    var r := p + q[1..];
    forall i | 0 <= i < |r| - 1 ensures (r[i], r[i + 1]) in links {
      if i < |p| - 1 {
        assert (p[i], p[i + 1]) in links;
      } else {
        assert (q[i - (|p| - 1)], q[i - (|p| - 1) + 1]) in links;
      }
    }
    assert Path(links, r);
  }

  /** If every link of one graph is a connection in another, so is every connection. */
  lemma {:induction false} Simulates(links: Links, other: Links, p: seq<Id>)
    requires Path(links, p)
    requires forall l :: l in links ==> Connected(other, l.0, l.1)
    ensures Connected(other, p[0], p[|p| - 1])
  {
    assert (p[0], p[1]) in links;
    if |p| > 2 {
      var rest := p[1..];
      forall i | 0 <= i < |rest| - 1 ensures (rest[i], rest[i + 1]) in links {
        assert (p[i + 1], p[i + 2]) in links;
      }
      Simulates(links, other, rest);
      ConnectedTransitive(other, p[0], p[1], p[|p| - 1]);
    }
  }

  lemma ConnectedMonotone(links: Links, more: Links, a: Id, b: Id)
    requires links <= more && Connected(links, a, b)
    ensures Connected(more, a, b)
  {
    forall l | l in links ensures Connected(more, l.0, l.1) {
      LinkConnects(more, l.0, l.1);
    }
    var p :| Path(links, p) && p[0] == a && p[|p| - 1] == b;
    Simulates(links, more, p);
  }

  /** Any relation that holds across every link and is transitive holds along every path. */
  lemma {:induction false} TogetherAlongPath(g: Articles, links: Links, p: seq<Id>)
    requires Path(links, p)
    requires forall l :: l in links ==> Together(g, l.0, l.1)
    ensures Together(g, p[0], p[|p| - 1])
  {
    assert (p[0], p[1]) in links;
    if |p| > 2 {
      var rest := p[1..];
      forall i | 0 <= i < |rest| - 1 ensures (rest[i], rest[i + 1]) in links {
        assert (p[i + 1], p[i + 2]) in links;
      }
      TogetherAlongPath(g, links, rest);
      assert Together(g, p[0], p[1]);
    }
  }

  // ---- Runs ----

  lemma RunPrefix(gs: seq<Articles>, calls: seq<Call>)
    requires Run(gs, calls) && calls != []
    ensures Run(gs[..|calls|], calls[..|calls| - 1])
  {
  }

  lemma RunExtends(gs: seq<Articles>, calls: seq<Call>, call: Call, g: Articles)
    requires Run(gs, calls) && FreshFor(gs[|calls|], call.newId) && Step(gs[|calls|], call, g)
    ensures Run(gs + [g], calls + [call])
  {
    var gs', calls' := gs + [g], calls + [call];
    forall i | 0 <= i < |calls'| ensures FreshFor(gs'[i], calls'[i].newId) && Step(gs'[i], calls'[i], gs'[i + 1]) {
      if i < |calls| {
        assert gs'[i] == gs[i] && gs'[i + 1] == gs[i + 1] && calls'[i] == calls[i];
      } else {
        assert gs'[i] == gs[|calls|] && gs'[i + 1] == g && calls'[i] == call;
      }
    }
  }

  lemma {:induction false} RunKeepsArticles(gs: seq<Articles>, calls: seq<Call>)
    requires Run(gs, calls)
    ensures gs[|calls|].Keys == gs[0].Keys
  {
    if calls != [] {
      RunPrefix(gs, calls);
      RunKeepsArticles(gs[..|calls|], calls[..|calls| - 1]);
      assert Step(gs[|calls| - 1], calls[|calls| - 1], gs[|calls|]);
    }
  }

  /** Every reachable graph is well elected. */
  lemma {:induction false} RunKeepsWellElected(gs: seq<Articles>, calls: seq<Call>)
    requires Run(gs, calls) && WellElected(gs[0])
    ensures WellElected(gs[|calls|])
  {
    if calls != [] {
      RunPrefix(gs, calls);
      RunKeepsWellElected(gs[..|calls|], calls[..|calls| - 1]);
      var g, call, g' := gs[|calls| - 1], calls[|calls| - 1], gs[|calls|];
      assert FreshFor(g, call.newId) && Step(g, call, g');
      if !(call.Seed() !! g.Keys) {
        var id, rep :| Assigned(g, call.Seed(), call.newId, id, rep, g');
        AssignKeepsWellElected(g, call.Seed(), call.newId, id, rep, g');
      }
    }
  }

  /** Articles once together stay together. */
  lemma StepKeepsTogether(g: Articles, call: Call, g': Articles, a: Id, b: Id)
    requires FreshFor(g, call.newId) && Step(g, call, g') && Together(g, a, b)
    ensures Together(g', a, b)
  {
    if !(call.Seed() !! g.Keys) {
      var id, rep :| Assigned(g, call.Seed(), call.newId, id, rep, g');
      AssignPartition(g, call.Seed(), call.newId, id, rep, g', a, b);
    }
  }

  /** A touched article is reached from the seed. */
  lemma TouchedReachesSeed(g: Articles, call: Call, links: Links, a: Id)
    requires a in Touched(g, call.Seed())
    requires CallLinks(call, g.Keys) <= links
    requires forall x, y :: Together(g, x, y) ==> Connected(links, x, y)
    ensures exists s :: s in call.Seed() * g.Keys && Connected(links, a, s) && Connected(links, s, a)
  {
    if a in call.Seed() * g.Keys {
      LinkConnects(links, a, a);
    } else {
      var s :| s in call.Seed() && s in g && g[s].cluster.Some? && g[s].cluster == g[a].cluster;
      assert Together(g, a, s) && Together(g, s, a);
      assert s in call.Seed() * g.Keys;
    }
  }

  lemma StepSound(g: Articles, call: Call, g': Articles, links: Links, a: Id, b: Id)
    requires FreshFor(g, call.newId) && Step(g, call, g')
    requires CallLinks(call, g.Keys) <= links
    requires forall x, y :: Together(g, x, y) ==> Connected(links, x, y)
    requires Together(g', a, b)
    ensures Connected(links, a, b)
  {
    if !(call.Seed() !! g.Keys) {
      var id, rep :| Assigned(g, call.Seed(), call.newId, id, rep, g');
      AssignPartition(g, call.Seed(), call.newId, id, rep, g', a, b);
      if a in Touched(g, call.Seed()) {
        TouchedReachesSeed(g, call, links, a);
        TouchedReachesSeed(g, call, links, b);
        var s :| s in call.Seed() * g.Keys && Connected(links, a, s) && Connected(links, s, a);
        var t :| t in call.Seed() * g.Keys && Connected(links, b, t) && Connected(links, t, b);
        LinkConnects(links, s, t);
        ConnectedTransitive(links, a, s, t);
        ConnectedTransitive(links, a, t, b);
      }
    }
  }

  lemma StepComplete(g: Articles, call: Call, g': Articles, l: (Id, Id))
    requires FreshFor(g, call.newId) && Step(g, call, g')
    requires l in CallLinks(call, g.Keys)
    ensures Together(g', l.0, l.1)
  {
    var id, rep :| Assigned(g, call.Seed(), call.newId, id, rep, g');
    AssignPartition(g, call.Seed(), call.newId, id, rep, g', l.0, l.1);
  }

  lemma {:induction false} ComponentsSound(gs: seq<Articles>, calls: seq<Call>, a: Id, b: Id)
    requires Run(gs, calls) && Unclustered(gs[0])
    requires Together(gs[|calls|], a, b)
    ensures Connected(SeedLinks(calls, gs[0].Keys), a, b)
    decreases |calls|
  {
    assert calls != [];
    RunPrefix(gs, calls);
    var gs0, calls0 := gs[..|calls|], calls[..|calls| - 1];
    var g, call := gs[|calls| - 1], calls[|calls| - 1];
    var links := SeedLinks(calls, gs[0].Keys);
    RunKeepsArticles(gs0, calls0);
    forall x, y | Together(g, x, y) ensures Connected(links, x, y) {
      ComponentsSound(gs0, calls0, x, y);
      ConnectedMonotone(SeedLinks(calls0, gs[0].Keys), links, x, y);
    }
    StepSound(g, call, gs[|calls|], links, a, b);
  }

  lemma {:induction false} LinksTogether(gs: seq<Articles>, calls: seq<Call>, l: (Id, Id))
    requires Run(gs, calls) && l in SeedLinks(calls, gs[0].Keys)
    ensures Together(gs[|calls|], l.0, l.1)
    decreases |calls|
  {
    RunPrefix(gs, calls);
    var gs0, calls0 := gs[..|calls|], calls[..|calls| - 1];
    var g, call := gs[|calls| - 1], calls[|calls| - 1];
    RunKeepsArticles(gs0, calls0);
    if l in CallLinks(call, gs[0].Keys) {
      StepComplete(g, call, gs[|calls|], l);
    } else {
      LinksTogether(gs0, calls0, l);
      StepKeepsTogether(g, call, gs[|calls|], l.0, l.1);
    }
  }

  lemma {:induction false} CallLinksKept(calls: seq<Call>, dom: set<Id>, i: nat)
    requires i < |calls|
    ensures CallLinks(calls[i], dom) <= SeedLinks(calls, dom)
    decreases |calls|
  {
    if i < |calls| - 1 {
      CallLinksKept(calls[..|calls| - 1], dom, i);
    }
  }

  /** The seed of an earlier call has been one cluster ever since. */
  lemma SeedStaysTogether(gs: seq<Articles>, calls: seq<Call>, i: nat, a: Id, b: Id)
    requires Run(gs, calls) && i < |calls|
    requires a in calls[i].Seed() * gs[|calls|].Keys && b in calls[i].Seed() * gs[|calls|].Keys
    ensures Together(gs[|calls|], a, b)
  {
    RunKeepsArticles(gs, calls);
    CallLinksKept(calls, gs[0].Keys, i);
    assert (a, b) in CallLinks(calls[i], gs[0].Keys);
    LinksTogether(gs, calls, (a, b));
  }

  /** Redelivery at any later time, whatever calls came in between, changes no article's
      cluster. */
  lemma {:induction false} LaterRedelivery(gs: seq<Articles>, calls: seq<Call>, i: nat, again: Call, g': Articles)
    requires Run(gs, calls) && i < |calls|
    requires again.Seed() == calls[i].Seed() && Step(gs[|calls|], again, g')
    ensures g'.Keys == gs[|calls|].Keys
    ensures forall a :: a in g' ==> g'[a].cluster == gs[|calls|][a].cluster
  {
    var g, seed := gs[|calls|], again.Seed();
    if !(seed !! g.Keys) {
      var id, rep :| Assigned(g, seed, again.newId, id, rep, g');
      var s :| s in seed * g.Keys;
      forall x | x in seed * g.Keys ensures Together(g, s, x) {
        SeedStaysTogether(gs, calls, i, s, x);
      }
      OneClusterKept(g, seed, s, again.newId, id, rep, g');
    }
  }

  /** Assigning a seed that is within one cluster already. */
  lemma OneClusterKept(g: Articles, seed: set<Id>, s: Id, newId: Id, id: Id, rep: Id, g': Articles)
    requires s in seed * g.Keys && forall x :: x in seed * g.Keys ==> Together(g, s, x)
    requires Assigned(g, seed, newId, id, rep, g')
    ensures g'.Keys == g.Keys && forall a :: a in g' ==> g'[a].cluster == g[a].cluster
  {
    assert Together(g, s, s);
    var c := g[s].cluster.value;
    OneClusterTouched(g, seed, s, c);
    SurvivingAlone(g, Touched(g, seed), newId, id, c);
  }

  lemma OneClusterTouched(g: Articles, seed: set<Id>, s: Id, c: Id)
    requires s in seed * g.Keys && forall x :: x in seed * g.Keys ==> Together(g, s, x)
    requires g[s].cluster == Some(c)
    ensures ClusterIds(g, Touched(g, seed)) == {c} && Touched(g, seed) == Members(g, {c})
  {
    forall x | x in seed && Clustered(g, x) ensures g[x].cluster == Some(c) {
      assert Together(g, s, x);
    }
    assert ClusterIds(g, seed) == {c};
    TouchedIsClosed(g, seed);
  }

  /** After any run from an unclustered graph, two articles share a cluster exactly when the
      processed calls connect them. */
  lemma {:induction false} ClustersAreComponents(gs: seq<Articles>, calls: seq<Call>, a: Id, b: Id)
    requires Run(gs, calls) && Unclustered(gs[0])
    ensures Together(gs[|calls|], a, b) <==> Connected(SeedLinks(calls, gs[0].Keys), a, b)
  {
    if Together(gs[|calls|], a, b) {
      ComponentsSound(gs, calls, a, b);
    }
    var links := SeedLinks(calls, gs[0].Keys);
    if Connected(links, a, b) {
      forall l | l in links ensures Together(gs[|calls|], l.0, l.1) {
        LinksTogether(gs, calls, l);
      }
      var p :| Path(links, p) && p[0] == a && p[|p| - 1] == b;
      TogetherAlongPath(gs[|calls|], links, p);
    }
  }

  // ---- The same theorem over (self, match) pairs ----

  lemma {:induction false} MatchLinksAreSeedLinks(calls: seq<Call>, dom: set<Id>)
    requires forall i :: 0 <= i < |calls| ==> calls[i].self in dom
    ensures MatchLinks(calls, dom) <= SeedLinks(calls, dom)
  {
    if calls != [] {
      MatchLinksAreSeedLinks(calls[..|calls| - 1], dom);
      assert StarLinks(calls[|calls| - 1], dom) <= CallLinks(calls[|calls| - 1], dom);
    }
  }

  lemma {:induction false} SeedLinksAreMatchPaths(calls: seq<Call>, dom: set<Id>, l: (Id, Id))
    requires l in SeedLinks(calls, dom)
    ensures Connected(MatchLinks(calls, dom), l.0, l.1)
  {
    var call := calls[|calls| - 1];
    var links := MatchLinks(calls, dom);
    if l in CallLinks(call, dom) {
      assert (l.0, call.self) in StarLinks(call, dom) && (call.self, l.1) in StarLinks(call, dom);
      LinkConnects(links, l.0, call.self);
      LinkConnects(links, call.self, l.1);
      ConnectedTransitive(links, l.0, call.self, l.1);
    } else {
      SeedLinksAreMatchPaths(calls[..|calls| - 1], dom, l);
      ConnectedMonotone(MatchLinks(calls[..|calls| - 1], dom), links, l.0, l.1);
    }
  }

  /** When each call's own article exists, the connecting pairs are exactly (self, match). */
  lemma ClustersAreMatchComponents(gs: seq<Articles>, calls: seq<Call>, a: Id, b: Id)
    requires Run(gs, calls) && Unclustered(gs[0])
    requires forall i :: 0 <= i < |calls| ==> calls[i].self in gs[0]
    ensures Together(gs[|calls|], a, b) <==> Connected(MatchLinks(calls, gs[0].Keys), a, b)
  {
    var dom := gs[0].Keys;
    var seedLinks, matchLinks := SeedLinks(calls, dom), MatchLinks(calls, dom);
    ClustersAreComponents(gs, calls, a, b);
    MatchLinksAreSeedLinks(calls, dom);
    if Connected(matchLinks, a, b) {
      ConnectedMonotone(matchLinks, seedLinks, a, b);
    }
    if Connected(seedLinks, a, b) {
      forall l | l in seedLinks ensures Connected(matchLinks, l.0, l.1) {
        SeedLinksAreMatchPaths(calls, dom, l);
      }
      var p :| Path(seedLinks, p) && p[0] == a && p[|p| - 1] == b;
      Simulates(seedLinks, matchLinks, p);
    }
  }
}
