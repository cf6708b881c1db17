/** What every assignment keeps: one elected representative per cluster, the stored size,
    membership that only grows together, and the oldest cluster's id on a bridge. */
module ClusterInvariants {
  import opened Options
  import opened Ordering
  import opened Chronology
  import opened Clustering

  ghost predicate FreshFor(g: Articles, newId: Id) {
    newId !in ClusterIds(g, g.Keys)
  }

  ghost predicate Elected(g: Articles, c: Id, rep: Id) {
    var ms := Members(g, {c});
    && IsRepresentative(g, ms, rep)
    && forall x :: x in ms ==>
         g[x].representative == (x == rep) &&
         g[x].clusterSize == if x == rep then Some(|ms|) else None
  }

  /** Every cluster has exactly one representative, minimal by (dated before dateless,
      earlier, more credible), carrying the member count; nobody else carries either mark. */
  ghost predicate WellElected(g: Articles) {
    && (forall c :: c in ClusterIds(g, g.Keys) ==> exists rep :: Elected(g, c, rep))
    && (forall a :: a in g && g[a].cluster.None? ==> !g[a].representative && g[a].clusterSize.None?)
  }

  ghost predicate Unclustered(g: Articles) {
    forall a :: a in g ==> g[a].cluster.None? && !g[a].representative && g[a].clusterSize.None?
  }

  lemma UnclusteredIsWellElected(g: Articles)
    requires Unclustered(g)
    ensures WellElected(g) && ClusterIds(g, g.Keys) == {}
  {
  }

  lemma MembersOf(g: Articles, c: Id)
    ensures Members(g, {c}) == {} <==> c !in ClusterIds(g, g.Keys)
  {
    if Members(g, {c}) != {} {
      var b :| b in Members(g, {c});
      assert b in g && g[b].cluster == Some(c);
    }
    if c in ClusterIds(g, g.Keys) {
      var b :| b in g && g[b].cluster == Some(c);
      assert b in Members(g, {c});
    }
  }

  /** The surviving id is held by touched articles only. */
  lemma SurvivorIsLocal(g: Articles, ids: set<Id>, newId: Id, id: Id)
    requires Closed(g, ids) && FreshFor(g, newId) && Surviving(g, ids, newId, id)
    ensures Members(g, {id}) <= ids
    ensures id in ClusterIds(g, ids) || id == newId
  {
    if ClusterIds(g, ids) != {} {
      var m :| Earliest(g, ids, m) && g[m].cluster == Some(id);
      assert Earliest(g, ids, m);
      forall b | b in Members(g, {id}) ensures b in ids {
        assert Together(g, m, b);
      }
      assert id in ClusterIds(g, ids);
    } else {
      MembersOf(g, id);
    }
  }

  /** Stamping a closed set makes it one cluster and leaves every other cluster alone. */
  lemma StampMembers(g: Articles, ids: set<Id>, newId: Id, id: Id, rep: Id, c: Id)
    requires Closed(g, ids) && FreshFor(g, newId) && Surviving(g, ids, newId, id)
    ensures c == id ==> Members(Stamp(g, ids, id, rep), {c}) == ids
    ensures c != id && c !in ClusterIds(g, ids) ==>
      Members(Stamp(g, ids, id, rep), {c}) == Members(g, {c}) && Members(g, {c}) !! ids
    ensures c != id && c in ClusterIds(g, ids) ==> Members(Stamp(g, ids, id, rep), {c}) == {}
  {
    SurvivorIsLocal(g, ids, newId, id);
    if c == id {
      StampedCluster(g, ids, id, rep);
    } else if c in ClusterIds(g, ids) {
      AbsorbedCluster(g, ids, id, rep, c);
    } else {
      UntouchedCluster(g, ids, id, rep, c);
    }
  }

  lemma StampedCluster(g: Articles, ids: set<Id>, id: Id, rep: Id)
    requires ids <= g.Keys && Members(g, {id}) <= ids
    ensures Members(Stamp(g, ids, id, rep), {id}) == ids
  {
    var g' := Stamp(g, ids, id, rep);
    assert forall x :: x in Members(g', {id}) ==> x in ids || x in Members(g, {id});
  }

  lemma AbsorbedCluster(g: Articles, ids: set<Id>, id: Id, rep: Id, c: Id)
    requires Closed(g, ids) && c != id && c in ClusterIds(g, ids)
    ensures Members(Stamp(g, ids, id, rep), {c}) == {}
  {
    var a :| a in ids && a in g && g[a].cluster == Some(c);
    assert forall x :: x in Members(Stamp(g, ids, id, rep), {c}) ==> x !in ids && Together(g, a, x);
  }

  lemma UntouchedCluster(g: Articles, ids: set<Id>, id: Id, rep: Id, c: Id)
    requires ids <= g.Keys && c != id && c !in ClusterIds(g, ids)
    ensures Members(Stamp(g, ids, id, rep), {c}) == Members(g, {c}) && Members(g, {c}) !! ids
  {
    assert forall x :: x in ids && Clustered(g, x) ==> g[x].cluster.value in ClusterIds(g, ids);
  }

  lemma RepresentativeSurvivesStamp(g: Articles, g': Articles, ids: set<Id>, rep: Id)
    requires IsRepresentative(g, ids, rep) && ids <= g.Keys <= g'.Keys
    requires forall x :: x in ids ==> g'[x].published == g[x].published && g'[x].credibility == g[x].credibility
    ensures IsRepresentative(g', ids, rep)
  {
    forall x | x in ids ensures !Precedes(g'[x], g'[rep]) {
      assert !Precedes(g[x], g[rep]);
    }
  }

  /** Election is an invariant of assignment. */
  lemma AssignKeepsWellElected(g: Articles, seed: set<Id>, newId: Id, id: Id, rep: Id, g': Articles)
    requires WellElected(g) && FreshFor(g, newId) && Assigned(g, seed, newId, id, rep, g')
    ensures WellElected(g')
    ensures Elected(g', id, rep) && Members(g', {id}) == Touched(g, seed)
  {
    var ids := Touched(g, seed);
    TouchedIsClosed(g, seed);
    StampMembers(g, ids, newId, id, rep, id);
    RepresentativeSurvivesStamp(g, g', ids, rep);
    assert Elected(g', id, rep);
    forall c | c in ClusterIds(g', g'.Keys) ensures exists r :: Elected(g', c, r) {
      if c != id {
        StampMembers(g, ids, newId, id, rep, c);
        var x :| x in g' && g'[x].cluster == Some(c);
        assert x in Members(g', {c});
        assert x in Members(g, {c}) && x in g;
        assert c in ClusterIds(g, g.Keys);
        var r :| Elected(g, c, r);
        assert Elected(g, c, r);
        RepresentativeSurvivesStamp(g, g', Members(g, {c}), r);
        assert Elected(g', c, r);
      }
    }
  }

  /** After an assignment two articles share a cluster exactly when both were touched, or
      neither was and they already did. */
  lemma AssignPartition(g: Articles, seed: set<Id>, newId: Id, id: Id, rep: Id, g': Articles, a: Id, b: Id)
    requires FreshFor(g, newId) && Assigned(g, seed, newId, id, rep, g')
    ensures Together(g', a, b) <==>
      (a in Touched(g, seed) && b in Touched(g, seed)) ||
      (a !in Touched(g, seed) && b !in Touched(g, seed) && Together(g, a, b))
    ensures Together(g, a, b) ==> Together(g', a, b)
  {
    var ids := Touched(g, seed);
    TouchedIsClosed(g, seed);
    SurvivorIsLocal(g, ids, newId, id);
    if Together(g, a, b) {
      assert Together(g, b, a);
    }
    assert Together(g', a, b) && a in ids ==> b in ids || b in Members(g, {id});
    assert Together(g', a, b) && b in ids ==> a in ids || a in Members(g, {id});
  }

  /** What an article counts as elsewhere: its cluster, or itself while it has none. */
  function Label(g: Articles, a: Id): Id
    requires a in g
  {
    g[a].cluster.GetOr(a)
  }

  /** To everything that counts by label an assignment is a renaming: articles that counted as
      one still do. Article ids are no cluster ids. */
  lemma AssignRelabels(g: Articles, seed: set<Id>, newId: Id, id: Id, rep: Id, g': Articles)
    returns (rename: Id -> Id)
    requires Assigned(g, seed, newId, id, rep, g') && g.Keys !! ClusterIds(g, g.Keys)
    ensures g'.Keys == g.Keys && forall a :: a in g ==> Label(g', a) == rename(Label(g, a))
  {
    var ids := Touched(g, seed);
    TouchedIsClosed(g, seed);
    var labels := Labels(g, ids);
    rename := x => if x in labels then id else x;
    forall a | a in g ensures Label(g', a) == rename(Label(g, a)) {
      LabelTouched(g, ids, a);
    }
  }

  function Labels(g: Articles, ids: set<Id>): set<Id> {
    set a | a in ids && a in g :: Label(g, a)
  }

  /** A label is that of a touched article or of an untouched one, never of both. */
  lemma LabelTouched(g: Articles, ids: set<Id>, a: Id)
    requires Closed(g, ids) && g.Keys !! ClusterIds(g, g.Keys) && a in g
    ensures Label(g, a) in Labels(g, ids) <==> a in ids
  {
    if a !in ids {
      forall b | b in ids ensures Label(g, b) != Label(g, a) {
        LabelsApart(g, ids, a, b);
      }
    }
  }

  lemma LabelsApart(g: Articles, ids: set<Id>, a: Id, b: Id)
    requires Closed(g, ids) && g.Keys !! ClusterIds(g, g.Keys) && a in g && a !in ids && b in ids
    ensures Label(g, a) != Label(g, b)
  {
    assert !Together(g, b, a);
    assert Clustered(g, a) ==> g[a].cluster.value in ClusterIds(g, g.Keys);
    assert Clustered(g, b) ==> g[b].cluster.value in ClusterIds(g, g.Keys);
  }

  predicate Older(g: Articles, m: Id, x: Id)
    requires Clustered(g, m) && Clustered(g, x)
  {
    var km, kx := ChronologicalSortKey(g[m].published), ChronologicalSortKey(g[x].published);
    KeyLt(km, kx) || (km == kx && Lt(g[m].cluster.value, g[x].cluster.value))
  }

  /** A bridge keeps the older cluster's id: every other cluster it absorbs has, for each of
      its members, some member of the kept cluster at least as early, and an absorbed cluster
      as old as the kept one has a larger id. */
  lemma BridgeKeepsOldest(g: Articles, seed: set<Id>, newId: Id, id: Id, rep: Id, g': Articles, x: Id)
    requires Assigned(g, seed, newId, id, rep, g')
    requires x in Touched(g, seed) && Clustered(g, x) && g[x].cluster.value != id
    ensures exists m :: m in Touched(g, seed) && g[m].cluster == Some(id) && Older(g, m, x)
  {
    assert g[x].cluster.value in ClusterIds(g, Touched(g, seed));
    var m :| Earliest(g, Touched(g, seed), m) && g[m].cluster == Some(id);
    assert Earliest(g, Touched(g, seed), m);
  }

  /** A dated article anywhere in the merged story means its representative is dated, and no
      later. */
  lemma DatedRepresentative(g: Articles, seed: set<Id>, newId: Id, id: Id, rep: Id, g': Articles, x: Id)
    requires Assigned(g, seed, newId, id, rep, g')
    requires x in Touched(g, seed) && HasDate(g[x].published)
    ensures HasDate(g'[rep].published)
    ensures g'[rep].published.value <= g[x].published.value
  {
    assert !Precedes(g[x], g[rep]);
  }

  /** At the representative's own instant, or among dateless articles, nobody's source is more
      credible, and a source beats none. */
  lemma CredibleRepresentative(g: Articles, seed: set<Id>, newId: Id, id: Id, rep: Id, g': Articles, x: Id)
    requires Assigned(g, seed, newId, id, rep, g') && x in Touched(g, seed) && g[x].credibility.Some?
    requires ParseTimestamp(g[x].published) == ParseTimestamp(g[rep].published)
    ensures g'[rep].credibility.Some? && g[x].credibility.value <= g'[rep].credibility.value
  {
    assert !Precedes(g[x], g[rep]);
  }

  /** The one article of `c` that carries the mark and the count, and how it ranks. */
  ghost predicate SoleRepresentative(g: Articles, c: Id, rep: Id) {
    var ms := Members(g, {c});
    && rep in ms
    && (forall x :: x in ms ==> (g[x].representative <==> x == rep) && RanksFirst(g[rep], g[x]))
    && (forall x :: x in ms ==> g[x].clusterSize == if x == rep then Some(|ms|) else None)
  }

  lemma WellElectedRanks(g: Articles, c: Id) returns (rep: Id)
    requires WellElected(g) && c in ClusterIds(g, g.Keys)
    ensures SoleRepresentative(g, c, rep)
  {
    rep :| Elected(g, c, rep);
    RepresentativeRanksFirst(g, Members(g, {c}), rep);
  }

  /** Redelivery of the same article with the same matches changes no cluster, whatever fresh
      id the retry brings. */
  lemma RedeliveryKeepsClusters(g: Articles, seed: set<Id>, new1: Id, id1: Id, rep1: Id, g1: Articles)
    requires FreshFor(g, new1) && Assigned(g, seed, new1, id1, rep1, g1)
    ensures forall new2, id2, rep2, g2: Articles :: Assigned(g1, seed, new2, id2, rep2, g2) ==>
              id2 == id1
              && forall a :: a in g ==> g2[a].cluster == g1[a].cluster && g2[a].published == g1[a].published
  {
    var ids := Touched(g, seed);
    TouchedIsClosed(g, seed);
    SurvivorIsLocal(g, ids, new1, id1);
    StampedCluster(g, ids, id1, rep1);
    TouchedAgain(g, seed, id1, rep1, g1);
    forall new2, id2, rep2, g2: Articles | Assigned(g1, seed, new2, id2, rep2, g2)
      ensures id2 == id1
      ensures forall a :: a in g ==> g2[a].cluster == g1[a].cluster && g2[a].published == g1[a].published
    {
      SurvivingAlone(g1, ids, new2, id2, id1);
      StampedTwice(g, ids, id1, rep1, rep2);
    }
  }

  lemma StampedTwice(g: Articles, ids: set<Id>, id: Id, rep1: Id, rep2: Id)
    ensures
      var once := Stamp(g, ids, id, rep1);
      var twice := Stamp(once, ids, id, rep2);
      forall a :: a in g ==> twice[a].cluster == once[a].cluster && twice[a].published == once[a].published
  {
  }

  lemma SurvivingAlone(g: Articles, ids: set<Id>, newId: Id, id: Id, c: Id)
    requires ClusterIds(g, ids) == {c} && Surviving(g, ids, newId, id)
    ensures id == c
  {
    var m :| Earliest(g, ids, m) && g[m].cluster == Some(id);
    assert Earliest(g, ids, m);
    assert id in ClusterIds(g, ids);
  }

  lemma TouchedAgain(g: Articles, seed: set<Id>, id: Id, rep: Id, g': Articles)
    requires g' == Stamp(g, Touched(g, seed), id, rep)
    requires Members(g', {id}) == Touched(g, seed) != {}
    ensures Touched(g', seed) == Touched(g, seed) && ClusterIds(g', Touched(g, seed)) == {id}
  {
    TouchedEmpty(g, seed);
    var s :| s in seed && s in g.Keys;
    assert s in Touched(g, seed) && g'[s].cluster == Some(id);
    assert ClusterIds(g', seed) == {id};
  }
}
