/** Story clustering: what one `_assign_cluster_tx` does to the graph, and the graph
    itself as an object whose transaction body is the source's closure loop. */
module Clustering {
  import opened Options
  import opened Ordering
  import opened Chronology

  datatype Article = Article(
    published: Option<Instant>,
    credibility: Option<real>,
    cluster: Option<Id>,
    representative: bool,
    clusterSize: Option<nat>)

  type Articles = map<Id, Article>

  // ---- Reads ----

  function ClusterIds(g: Articles, ids: set<Id>): set<Id> {
    set a | a in ids && a in g && g[a].cluster.Some? :: g[a].cluster.value
  }

  function Members(g: Articles, clusters: set<Id>): set<Id> {
    set a | a in g && g[a].cluster.Some? && g[a].cluster.value in clusters
  }

  predicate Together(g: Articles, a: Id, b: Id) {
    a in g && b in g && g[a].cluster.Some? && g[a].cluster == g[b].cluster
  }

  // ---- Election and survival ----

  predicate LessCredible(a: Option<real>, b: Option<real>) {
    b.Some? && (a.None? || a.value < b.value)
  }

  /** `x` beats `y`: earlier, or as early and from a more credible source. */
  predicate Precedes(x: Article, y: Article) {
    var kx, ky := ChronologicalSortKey(x.published), ChronologicalSortKey(y.published);
    KeyLt(kx, ky) || (kx == ky && LessCredible(y.credibility, x.credibility))
  }

  predicate IsRepresentative(g: Articles, ids: set<Id>, rep: Id) {
    rep in ids && rep in g && forall x :: x in ids && x in g ==> !Precedes(g[x], g[rep])
  }

  /** What the election promises of the elected article beside any other: a date where the
      other has one, none later, and at the same instant, or when neither has a date, a source
      at least as credible. No source is less credible than any. */
  predicate RanksFirst(rep: Article, x: Article) {
    && (HasDate(x.published) ==> HasDate(rep.published) && rep.published.value <= x.published.value)
    && (ParseTimestamp(x.published) == ParseTimestamp(rep.published) && x.credibility.Some? ==>
          rep.credibility.Some? && x.credibility.value <= rep.credibility.value)
  }

  lemma RepresentativeRanksFirst(g: Articles, ids: set<Id>, rep: Id)
    requires IsRepresentative(g, ids, rep)
    ensures forall x :: x in ids && x in g ==> RanksFirst(g[rep], g[x])
  {
    forall x | x in ids && x in g ensures RanksFirst(g[rep], g[x]) {
      assert !Precedes(g[x], g[rep]);
    }
  }

  predicate Clustered(g: Articles, a: Id) {
    a in g && g[a].cluster.Some?
  }

  /** `best`'s cluster is preferred over `x`'s, or is `x`'s. */
  predicate NotBefore(g: Articles, best: Id, x: Id)
    requires Clustered(g, best) && Clustered(g, x)
  {
    var kx, km := ChronologicalSortKey(g[x].published), ChronologicalSortKey(g[best].published);
    KeyLt(km, kx) || (km == kx && Le(g[best].cluster.value, g[x].cluster.value))
  }

  /** `m` is a clustered member of `ids` with the earliest key; among clusters that tie on
      it, `m`'s has the smallest id. */
  predicate Earliest(g: Articles, ids: set<Id>, m: Id) {
    m in ids && Clustered(g, m) && forall x :: x in ids && Clustered(g, x) ==> NotBefore(g, m, x)
  }

  ghost predicate Surviving(g: Articles, ids: set<Id>, newId: Id, id: Id) {
    if ClusterIds(g, ids) == {} then id == newId
    else exists m :: Earliest(g, ids, m) && g[m].cluster == Some(id)
  }

  // ---- The atomic assignment ----

  /** The seed's existing articles and every member of a cluster one of them is in. */
  function Touched(g: Articles, seed: set<Id>): set<Id> {
    (seed * g.Keys) + Members(g, ClusterIds(g, seed))
  }

  function Stamp(g: Articles, ids: set<Id>, id: Id, rep: Id): Articles {
    map a | a in g ::
      if a in ids then
        g[a].(cluster := Some(id),
              representative := a == rep,
              clusterSize := if a == rep then Some(|ids|) else None)
      else g[a]
  }

  ghost predicate Assigned(g: Articles, seed: set<Id>, newId: Id, id: Id, rep: Id, g': Articles) {
    var ids := Touched(g, seed);
    IsRepresentative(g, ids, rep) && Surviving(g, ids, newId, id) && g' == Stamp(g, ids, id, rep)
  }

  ghost predicate Closed(g: Articles, ids: set<Id>) {
    ids <= g.Keys && forall a, b :: a in ids && Together(g, a, b) ==> b in ids
  }

  lemma TouchedIsClosed(g: Articles, seed: set<Id>)
    ensures Closed(g, Touched(g, seed))
    ensures ClusterIds(g, Touched(g, seed)) == ClusterIds(g, seed)
  {
    var ids := Touched(g, seed);
    forall a | a in ids && Clustered(g, a) ensures g[a].cluster.value in ClusterIds(g, seed) {
      if a !in Members(g, ClusterIds(g, seed)) { assert a in seed; }
    }
    forall c | c in ClusterIds(g, seed) ensures c in ClusterIds(g, ids) {
      var a :| a in seed && a in g && g[a].cluster == Some(c);
      assert a in ids;
    }
  }

  // ---- The graph as an object ----

  datatype Outcome = Assignment(clusterId: Id) | NoSuchArticle

  class ArticleGraph {
    var nodes: Articles

    /** The node locks this transaction holds. */
    var locked: set<Id>

    constructor (nodes: Articles)
      ensures this.nodes == nodes && this.locked == {}
    {
      this.nodes := nodes;
      locked := {};
    }

    /** Locks the seed, then every member of a cluster a locked article is in, until a round
        finds nothing new. */
    method LockClosure(seed: set<Id>)
      modifies `locked
      ensures locked == seed + Touched(nodes, seed)
      ensures locked * nodes.Keys == Touched(nodes, seed)
    {
      var g := nodes;
      ghost var bound := seed + Touched(g, seed);
      locked := {};
      var toLock := seed;
      while toLock != {}
        invariant toLock !! locked
        invariant seed <= locked + toLock <= bound
        invariant toLock == {} ==> Members(g, ClusterIds(g, locked)) <= locked
        decreases bound - locked
      {
        LockingProgresses(bound, locked, toLock);
        locked := locked + toLock;
        var clusterIds := ClusterIds(g, locked);
        var allMembers := if clusterIds != {} then Members(g, clusterIds) else {};
        LockedStaysInside(g, seed, locked);
        toLock := allMembers - locked;
      }
      assert ClusterIds(g, {}) == {};
      LockedIsTouched(g, seed, locked);
    }

    /** The whole transaction: lock, read, decide, restamp. A seed with no existing article
        has nothing to elect from: the source's `min` raises and nothing is written. */
    method AssignCluster(selfId: Id, matched: seq<Id>, newId: Id) returns (r: Outcome)
      modifies this
      ensures r.NoSuchArticle? <==> Seed(selfId, matched) !! old(nodes).Keys
      ensures r.NoSuchArticle? ==> nodes == old(nodes)
      ensures r.Assignment? ==>
        exists rep :: Assigned(old(nodes), Seed(selfId, matched), newId, r.clusterId, rep, nodes)
      ensures locked == Seed(selfId, matched) + Touched(old(nodes), Seed(selfId, matched))
      ensures selfId in locked && Elements(matched) <= locked
    {
      ghost var g := nodes;
      var seed := Seed(selfId, matched);
      LockClosure(seed);
      var members := locked * nodes.Keys;
      assert members == Touched(g, seed);
      TouchedEmpty(g, seed);
      if members == {} {
        return NoSuchArticle;
      }
      var existing := ClusterIds(nodes, members);
      var finalId := newId;
      if existing != {} {
        finalId := OldestCluster(members, existing);
      }
      var rep := Elect(members);
      assert Surviving(nodes, members, newId, finalId);
      nodes := Stamp(nodes, members, finalId, rep);
      assert Assigned(g, seed, newId, finalId, rep, nodes);
      r := Assignment(finalId);
    }

    /** `min(existing_cluster_ids, key=oldest member time)` over the sorted ids. */
    method OldestCluster(members: set<Id>, existing: set<Id>) returns (id: Id)
      requires members <= nodes.Keys
      requires existing == ClusterIds(nodes, members) && existing != {}
      ensures exists m :: Earliest(nodes, members, m) && nodes[m].cluster == Some(id)
    {
      var ids := Sorted(existing);
      SortedIncreases(existing);
      assert ids[0] in existing;
      var best := OldestMember(members, ids[0]);
      id := ids[0];
      ghost var j := 0;
      for i := 1 to |ids|
        invariant BestSoFar(nodes, members, ids, i, j, best) && id == ids[j]
      {
        assert ids[i] in existing;
        var m := OldestMember(members, ids[i]);
        BestStep(nodes, members, ids, i, j, best, m);
        if KeyLt(ChronologicalSortKey(nodes[m].published), ChronologicalSortKey(nodes[best].published)) {
          best, id, j := m, ids[i], i;
        }
      }
      BestIsEarliest(nodes, members, ids, j, best);
    }

    /** A member of cluster `c` with the smallest sort key. Rows come in any order. */
    method OldestMember(members: set<Id>, c: Id) returns (m: Id)
      requires members <= nodes.Keys
      requires c in ClusterIds(nodes, members)
      ensures m in members && nodes[m].cluster == Some(c)
      ensures forall x :: x in members && nodes[x].cluster == Some(c) ==>
        KeyLe(ChronologicalSortKey(nodes[m].published), ChronologicalSortKey(nodes[x].published))
    {
      var rest := members;
      m :| m in members && nodes[m].cluster == Some(c);
      while rest != {}
        invariant rest <= members
        invariant m in members && nodes[m].cluster == Some(c)
        invariant forall x :: x in members && x !in rest && nodes[x].cluster == Some(c) ==>
          KeyLe(ChronologicalSortKey(nodes[m].published), ChronologicalSortKey(nodes[x].published))
        decreases rest
      {
        var x :| x in rest;
        rest := rest - {x};
        if nodes[x].cluster == Some(c) &&
           KeyLt(ChronologicalSortKey(nodes[x].published), ChronologicalSortKey(nodes[m].published)) {
          m := x;
        }
      }
    }

    method Elect(members: set<Id>) returns (rep: Id)
      requires members <= nodes.Keys && members != {}
      ensures IsRepresentative(nodes, members, rep)
      ensures forall x :: x in members ==> RanksFirst(nodes[rep], nodes[x])
    {
      rep :| rep in members;
      var rest := members - {rep};
      while rest != {}
        invariant rest <= members && rep in members && rep !in rest
        invariant forall x :: x in members && x !in rest ==> !Precedes(nodes[x], nodes[rep])
        decreases rest
      {
        var x :| x in rest;
        rest := rest - {x};
        if Precedes(nodes[x], nodes[rep]) {
          rep := x;
        }
      }
      RepresentativeRanksFirst(nodes, members, rep);
    }
  }

  function Seed(selfId: Id, matched: seq<Id>): set<Id> {
    {selfId} + set a | a in matched
  }

  /** `best` is an oldest member of cluster `ids[j]`, preferred to the members of the first
      `i` clusters. */
  ghost predicate BestSoFar(g: Articles, members: set<Id>, ids: seq<Id>, i: nat, j: nat, best: Id) {
    && j < i <= |ids| && best in members && best in g && g[best].cluster == Some(ids[j])
    && forall k, x :: 0 <= k < i && x in members && x in g && g[x].cluster == Some(ids[k]) ==> NotBefore(g, best, x)
  }

  lemma BestStep(g: Articles, members: set<Id>, ids: seq<Id>, i: nat, j: nat, best: Id, m: Id)
    requires Increasing(ids) && i < |ids| && BestSoFar(g, members, ids, i, j, best)
    requires m in members && m in g && g[m].cluster == Some(ids[i])
    requires forall x :: x in members && x in g && g[x].cluster == Some(ids[i]) ==>
      KeyLe(ChronologicalSortKey(g[m].published), ChronologicalSortKey(g[x].published))
    ensures
      if KeyLt(ChronologicalSortKey(g[m].published), ChronologicalSortKey(g[best].published))
      then BestSoFar(g, members, ids, i + 1, i, m)
      else BestSoFar(g, members, ids, i + 1, j, best)
  {
    assert Lt(ids[j], ids[i]);
  }

  lemma BestIsEarliest(g: Articles, members: set<Id>, ids: seq<Id>, j: nat, best: Id)
    requires BestSoFar(g, members, ids, |ids|, j, best) && forall c :: c in ClusterIds(g, members) ==> c in ids
    ensures Earliest(g, members, best)
  {
    forall x | x in members && Clustered(g, x) ensures NotBefore(g, best, x) {
      assert g[x].cluster.value in ClusterIds(g, members);
      var k :| 0 <= k < |ids| && ids[k] == g[x].cluster.value;
    }
  }

  lemma TouchedEmpty(g: Articles, seed: set<Id>)
    ensures Touched(g, seed) == {} <==> seed !! g.Keys
  {
    if seed !! g.Keys {
      assert ClusterIds(g, seed) == {};
    } else {
      var a :| a in seed && a in g.Keys;
      assert a in Touched(g, seed);
    }
  }

  lemma LockingProgresses(bound: set<Id>, locked: set<Id>, toLock: set<Id>)
    requires toLock != {} && toLock !! locked && toLock <= bound
    ensures bound - (locked + toLock) < bound - locked
  {
    var a :| a in toLock;
    assert a in bound - locked && a !in bound - (locked + toLock);
  }

  lemma LockedStaysInside(g: Articles, seed: set<Id>, locked: set<Id>)
    requires seed <= locked <= seed + Touched(g, seed)
    ensures Members(g, ClusterIds(g, locked)) <= Touched(g, seed)
  {
    TouchedIsClosed(g, seed);
    forall b | b in Members(g, ClusterIds(g, locked)) ensures b in Touched(g, seed) {
      var a :| a in locked && a in g && g[a].cluster == g[b].cluster;
      assert Together(g, a, b);
      if a in seed { assert a in seed * g.Keys; }
    }
  }

  lemma LockedIsTouched(g: Articles, seed: set<Id>, locked: set<Id>)
    requires seed <= locked <= seed + Touched(g, seed)
    requires Members(g, ClusterIds(g, locked)) <= locked
    ensures locked == seed + Touched(g, seed)
    ensures locked * g.Keys == Touched(g, seed)
  {
    forall b | b in Members(g, ClusterIds(g, seed)) ensures b in locked {
      var a :| a in seed && a in g && g[a].cluster == g[b].cluster;
      assert b in Members(g, ClusterIds(g, locked));
    }
  }
}
