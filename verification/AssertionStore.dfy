/** The edges of one relationship type as an object: the single upserts, and the bulk
    authoritative upsert as the three passes its query makes over the rows. */
module AssertionStore {
  import opened Options
  import opened Ordering
  import opened Chronology
  import opened AssertionEdges

  type Key = (Id, Id)

  type Edges = map<Key, Edge>

  function Existing(edges: Edges, key: Key): Option<Edge> {
    if key in edges then Some(edges[key]) else None
  }

  /** `NoInferredPart` is the KeyError on an edge that lists a cluster and has no inferred
      confidence; no history of upserts leaves one. */
  datatype Outcome = EndpointNotFound | Created | Matched | Updated | NoInferredPart

  datatype BulkResult = BulkResult(processed: nat, created: nat)

  // ---- One row of the bulk query, clause by clause ----

  function SetComponents(e: Edge, source: Id, credibility: real, now: Instant): Edge {
    e.(lastConfirmed := Some(now),
       authoritative := if credibility > e.authoritative.GetOr(0.0) then Some(credibility) else e.authoritative,
       origin := if AUTHORITATIVE !in e.origin then e.origin + [AUTHORITATIVE] else e.origin,
       feedSources := if source !in e.feedSources then e.feedSources + [source] else e.feedSources)
  }

  /** Comparing with a null gives null, which takes the ELSE branch. */
  function SetConfidence(e: Edge): Edge {
    e.(confidence := if e.authoritative.Some? && e.authoritative.value > e.inferred.GetOr(0.0)
                     then e.authoritative else e.inferred)
  }

  function BulkRow(existing: Option<Edge>, source: Id, credibility: real, now: Instant): Edge {
    SetConfidence(SetComponents(existing.GetOr(Bare(now)), source, credibility, now))
  }

  function Keys(rows: seq<Key>, starts: set<Id>, ends: set<Id>): set<Key> {
    set r | r in rows && r.0 in starts && r.1 in ends
  }

  function BulkResultEdges(edges: Edges, keys: set<Key>, source: Id, credibility: real, now: Instant): Edges {
    map k | k in edges.Keys + keys ::
      if k in keys then BulkRow(Existing(edges, k), source, credibility, now) else edges[k]
  }

  /** A property map of a SET `+=`: what it names is replaced, what it does not is kept. */
  datatype Props = Props(
    origin: Option<seq<Id>> := None,
    feedSources: Option<seq<Id>> := None,
    authoritative: Option<real> := None,
    inferred: Option<real> := None,
    confidence: Option<real> := None,
    articles: Option<seq<Id>> := None,
    supporting: Option<nat> := None,
    contributing: Option<seq<Id>> := None,
    firstObserved: Option<Instant> := None,
    lastConfirmed: Option<Instant> := None)

  function Or<T>(named: Option<T>, kept: Option<T>): Option<T> {
    if named.Some? then named else kept
  }

  function SetProps(e: Edge, p: Props): Edge {
    Edge(p.origin.GetOr(e.origin), p.feedSources.GetOr(e.feedSources),
         Or(p.authoritative, e.authoritative), Or(p.inferred, e.inferred), Or(p.confidence, e.confidence),
         p.articles.GetOr(e.articles), Or(p.supporting, e.supporting), p.contributing.GetOr(e.contributing),
         Or(p.firstObserved, e.firstObserved), Or(p.lastConfirmed, e.lastConfirmed))
  }

  predicate Broken(existing: Option<Edge>, cluster: Id) {
    existing.Some? && cluster in existing.value.contributing && existing.value.inferred.None?
  }

  /** No history of upserts breaks an edge. */
  lemma NeverBroken(us: seq<Upsert>, cap: nat, cluster: Id)
    ensures !Broken(After(us, cap), cluster)
  {
    var m, best := UpsertsDerive(us, cap, 0);
    ElementsOfSorted(m.Keys);
  }

  class EdgeStore {
    const starts: set<Id>
    const ends: set<Id>
    var edges: Edges

    constructor (starts: set<Id>, ends: set<Id>)
      ensures this.starts == starts && this.ends == ends && edges == map[]
    {
      this.starts, this.ends := starts, ends;
      edges := map[];
    }

    predicate HasEndpoints(key: Key) {
      key.0 in starts && key.1 in ends
    }

    /** `merge_relationship`: both endpoints must exist. A new edge gets the properties of
        `onCreate`; on one that was there those of `onMatch` are set and the others kept. */
    method MergeRelationship(key: Key, onCreate: Props, onMatch: Props) returns (r: Outcome)
      modifies `edges
      ensures !HasEndpoints(key) ==> r == EndpointNotFound && edges == old(edges)
      ensures HasEndpoints(key) && key !in old(edges) ==>
        r == Created && edges == old(edges)[key := SetProps(NO_PROPERTIES, onCreate)]
      ensures HasEndpoints(key) && key in old(edges) ==>
        r == Matched && edges == old(edges)[key := SetProps(old(edges)[key], onMatch)]
    {
      if !HasEndpoints(key) {
        return EndpointNotFound;
      }
      if key in edges {
        edges := edges[key := SetProps(edges[key], onMatch)];
        return Matched;
      }
      edges := edges[key := SetProps(NO_PROPERTIES, onCreate)];
      return Created;
    }

    method UpsertAuthoritative(key: Key, source: Id, credibility: real, now: Instant) returns (r: Outcome)
      modifies `edges
      ensures !HasEndpoints(key) ==> r == EndpointNotFound && edges == old(edges)
      ensures HasEndpoints(key) ==>
        && r == (if key in old(edges) then Matched else Created)
        && edges == old(edges)[key := WithFeed(Existing(old(edges), key), source, credibility, now)]
    {
      var existing := Existing(edges, key);
      var origin := Elements(existing.GetOr(Bare(now)).origin) + {AUTHORITATIVE};
      var feedSources := Elements(existing.GetOr(Bare(now)).feedSources) + {source};
      var authoritative := Max(credibility, if existing.Some? then existing.value.authoritative.GetOr(0.0) else 0.0);
      var inferred := if existing.Some? then existing.value.inferred.GetOr(0.0) else 0.0;
      var props := Props(
        origin := Some(Sorted(origin)), feedSources := Some(Sorted(feedSources)),
        authoritative := Some(authoritative), confidence := Some(Max(authoritative, inferred)),
        lastConfirmed := Some(now));
      r := MergeRelationship(key, props.(firstObserved := Some(now)), props);
    }

    /** A cluster seen before is a no-op on the evidence and reports `Matched`; a new one on an
        existing edge reports `Updated`. An edge that lists the cluster without an inferred
        confidence is left alone. */
    method UpsertInferred(key: Key, cluster: Id, contribution: real, articles: seq<Id>, cap: nat, now: Instant)
      returns (r: Outcome)
      modifies `edges
      ensures !HasEndpoints(key) ==> r == EndpointNotFound && edges == old(edges)
      ensures HasEndpoints(key) && Broken(Existing(old(edges), key), cluster) ==>
        r == NoInferredPart && edges == old(edges)
      ensures HasEndpoints(key) && !Broken(Existing(old(edges), key), cluster) ==>
        && edges == old(edges)[key := WithStory(Existing(old(edges), key), cluster, contribution, articles, cap, now)]
        && r == (if key !in old(edges) then Created
                 else if cluster in old(edges)[key].contributing then Matched else Updated)
    {
      var e := Existing(edges, key).GetOr(Bare(now));
      var alreadySeen := cluster in e.contributing;
      if alreadySeen && e.inferred.None? {
        return if HasEndpoints(key) then NoInferredPart else EndpointNotFound;
      }
      var inferred, articleIds, supporting := e.inferred.GetOr(0.0), e.articles, e.supporting.GetOr(|e.articles|);
      if !alreadySeen {
        inferred := FoldIn(inferred, contribution);
        var newIds := NotIn(articles, e.articles);
        articleIds := Take(e.articles + newIds, cap);
        supporting := supporting + |newIds|;
      }
      var props := Props(
        origin := Some(Sorted(Elements(e.origin) + {INFERRED})),
        inferred := Some(inferred),
        confidence := Some(Max(e.authoritative.GetOr(0.0), inferred)),
        articles := Some(articleIds), supporting := Some(supporting),
        contributing := Some(Sorted(Elements(e.contributing) + {cluster})),
        lastConfirmed := Some(now));
      var outcome := MergeRelationship(key, props.(firstObserved := Some(now)), props);
      r := if outcome == Matched && !alreadySeen then Updated else outcome;
    }

    /** The bulk query. Each clause runs over every row before the next clause starts; rows
        whose endpoints do not exist are dropped by the MATCH. */
    method UpsertAuthoritativeBulk(rows: seq<Key>, source: Id, credibility: real, now: Instant) returns (r: BulkResult)
      modifies `edges
      ensures edges == BulkResultEdges(old(edges), Keys(rows, starts, ends), source, credibility, now)
      ensures r.created == |Keys(rows, starts, ends) - old(edges).Keys|
      ensures r.processed == Matching(rows, starts, ends)
    {
      BulkPasses(edges, Keys(rows, starts, ends), source, credibility, now);
      var created := Merge(rows, now);
      AssignComponents(rows, source, credibility, now);
      AssignConfidence(rows);
      var processed := CountRows(rows);
      return BulkResult(processed, created);
    }

    /** The MERGE clause: a bare edge for each pair that has none. */
    method Merge(rows: seq<Key>, now: Instant) returns (created: nat)
      modifies `edges
      ensures edges == Merged(old(edges), Keys(rows, starts, ends), now)
      ensures created == |Keys(rows, starts, ends) - old(edges).Keys|
    {
      ghost var before := edges;
      ghost var done: set<Key> := {};
      created := 0;
      MergedNothing(before, now);
      for i := 0 to |rows|
        invariant done == Keys(rows[..i], starts, ends)
        invariant edges == Merged(before, done, now) && |edges| == |before| + created
      {
        KeysGrow(rows, i, starts, ends);
        if HasEndpoints(rows[i]) {
          MergedGrows(before, done, rows[i], now);
          var isNew := MergeOne(rows[i], now);
          created := created + if isNew then 1 else 0;
          done := done + {rows[i]};
        }
      }
      assert rows[..|rows|] == rows;
      MergedCount(before, Keys(rows, starts, ends), now);
    }

    method MergeOne(key: Key, now: Instant) returns (created: bool)
      modifies `edges
      ensures created <==> key !in old(edges)
      ensures edges == if key in old(edges) then old(edges) else old(edges)[key := Bare(now)]
      ensures |edges| == |old(edges)| + if created then 1 else 0
    {
      created := key !in edges;
      if created {
        edges := edges[key := Bare(now)];
      }
    }

    /** The first SET clause, over rows that all have an edge by now. */
    method AssignComponents(rows: seq<Key>, source: Id, credibility: real, now: Instant)
      requires Keys(rows, starts, ends) <= edges.Keys
      modifies `edges
      ensures edges == WithComponents(old(edges), Keys(rows, starts, ends), source, credibility, now)
    {
      ghost var before := edges;
      ghost var done: set<Key> := {};
      for i := 0 to |rows|
        invariant done == Keys(rows[..i], starts, ends)
        invariant edges == WithComponents(before, done, source, credibility, now)
      {
        KeysGrow(rows, i, starts, ends);
        if HasEndpoints(rows[i]) {
          assert rows[i] in Keys(rows, starts, ends);
          edges := edges[rows[i] := SetComponents(edges[rows[i]], source, credibility, now)];
          done := done + {rows[i]};
        }
      }
      assert rows[..|rows|] == rows;
    }

    /** RETURN count(r): one per surviving row, repeats included. */
    method CountRows(rows: seq<Key>) returns (n: nat)
      ensures n == Matching(rows, starts, ends)
    {
      n := 0;
      for i := 0 to |rows|
        invariant n == Matching(rows[..i], starts, ends)
      {
        assert rows[..i + 1][..i] == rows[..i];
        n := n + if HasEndpoints(rows[i]) then 1 else 0;
      }
      assert rows[..|rows|] == rows;
    }

    /** The second SET clause. */
    method AssignConfidence(rows: seq<Key>)
      requires Keys(rows, starts, ends) <= edges.Keys
      modifies `edges
      ensures edges == WithConfidence(old(edges), Keys(rows, starts, ends))
    {
      ghost var before := edges;
      ghost var done: set<Key> := {};
      for i := 0 to |rows|
        invariant done == Keys(rows[..i], starts, ends)
        invariant edges == WithConfidence(before, done)
      {
        KeysGrow(rows, i, starts, ends);
        if HasEndpoints(rows[i]) {
          assert rows[i] in Keys(rows, starts, ends);
          edges := edges[rows[i] := SetConfidence(edges[rows[i]])];
          done := done + {rows[i]};
        }
      }
      assert rows[..|rows|] == rows;
    }
  }

  function Merged(edges: Edges, keys: set<Key>, now: Instant): Edges {
    map k | k in edges.Keys + keys :: Existing(edges, k).GetOr(Bare(now))
  }

  lemma MergedNothing(edges: Edges, now: Instant)
    ensures Merged(edges, {}, now) == edges && {} - edges.Keys == {}
  {
  }

  lemma MergedGrows(edges: Edges, done: set<Key>, key: Key, now: Instant)
    ensures
      var m := Merged(edges, done, now);
      && Merged(edges, done + {key}, now) == (if key in m then m else m[key := Bare(now)])
      && m.Keys == edges.Keys + done
  {
  }

  lemma MergedCount(edges: Edges, keys: set<Key>, now: Instant)
    ensures |Merged(edges, keys, now)| == |edges| + |keys - edges.Keys|
  {
    var m := Merged(edges, keys, now);
    assert m.Keys == edges.Keys + (keys - edges.Keys);
    assert |m| == |m.Keys| && |edges| == |edges.Keys|;
  }

  function WithComponents(edges: Edges, keys: set<Key>, source: Id, credibility: real, now: Instant): Edges {
    map k | k in edges :: if k in keys then SetComponents(edges[k], source, credibility, now) else edges[k]
  }

  function WithConfidence(edges: Edges, keys: set<Key>): Edges {
    map k | k in edges :: if k in keys then SetConfidence(edges[k]) else edges[k]
  }

  lemma BulkPasses(edges: Edges, keys: set<Key>, source: Id, credibility: real, now: Instant)
    ensures WithConfidence(WithComponents(Merged(edges, keys, now), keys, source, credibility, now), keys)
      == BulkResultEdges(edges, keys, source, credibility, now)
  {
  }

  /** How many rows have both endpoints, repeats included. */
  function Matching(rows: seq<Key>, starts: set<Id>, ends: set<Id>): nat {
    if rows == [] then 0
    else
      var last := rows[|rows| - 1];
      Matching(rows[..|rows| - 1], starts, ends) + if last.0 in starts && last.1 in ends then 1 else 0
  }

  /** What is processed: every row with both endpoints, so at least as many as there are edges
      to write, and exactly as many when no such row is repeated. */
  lemma {:induction false} ProcessedCountsRows(rows: seq<Key>, starts: set<Id>, ends: set<Id>)
    ensures |Keys(rows, starts, ends)| <= Matching(rows, starts, ends) <= |rows|
    ensures Matching(rows, starts, ends) == |rows| <==> forall r :: r in rows ==> r.0 in starts && r.1 in ends
    ensures Distinct(rows) ==> Matching(rows, starts, ends) == |Keys(rows, starts, ends)|
  {
    if rows == [] {
      assert Keys(rows, starts, ends) == {};
    } else {
      var last := |rows| - 1;
      ProcessedCountsRows(rows[..last], starts, ends);
      KeysGrow(rows, last, starts, ends);
      assert rows[..last + 1] == rows && rows == rows[..last] + [rows[last]];
      DistinctSnoc(rows[..last], rows[last]);
    }
  }

  lemma KeysGrow(rows: seq<Key>, i: nat, starts: set<Id>, ends: set<Id>)
    requires i < |rows|
    ensures Keys(rows[..i + 1], starts, ends) ==
      Keys(rows[..i], starts, ends) + if rows[i].0 in starts && rows[i].1 in ends then {rows[i]} else {}
  {
    assert rows[..i + 1] == rows[..i] + [rows[i]];
  }

  // ---- Bulk against single ----

  /** The single authoritative upsert applied to each row in turn. */
  function Folded(edges: Edges, rows: seq<Key>, source: Id, credibility: real, now: Instant): Edges {
    if rows == [] then edges
    else
      var before := Folded(edges, rows[..|rows| - 1], source, credibility, now);
      var key := rows[|rows| - 1];
      before[key := WithFeed(Existing(before, key), source, credibility, now)]
  }

  /** Equal up to the order of the two provenance lists. */
  ghost predicate SameEdge(e: Edge, f: Edge) {
    && Elements(e.origin) == Elements(f.origin) && Elements(e.feedSources) == Elements(f.feedSources)
    && e.(origin := [], feedSources := []) == f.(origin := [], feedSources := [])
  }

  /** When the bulk CASE expressions agree with the single upsert's `max` on one edge: the
      credibility is positive, or a stored component keeps the floor of zero out of play. */
  predicate FloorUnused(existing: Option<Edge>, credibility: real) {
    credibility > 0.0 ||
    (existing.Some? && existing.value.authoritative.Some? &&
     (existing.value.authoritative.value > 0.0 || existing.value.inferred.Some?))
  }

  lemma RowAgrees(existing: Option<Edge>, source: Id, credibility: real, now: Instant)
    ensures SameEdge(BulkRow(existing, source, credibility, now), WithFeed(existing, source, credibility, now))
      <==> FloorUnused(existing, credibility)
  {
    var bulk, single := BulkRow(existing, source, credibility, now), WithFeed(existing, source, credibility, now);
    ProvenanceAgrees(existing, source, credibility, now);
    NumbersAgree(existing, source, credibility, now);
    assert bulk.(origin := [], feedSources := [], authoritative := None, confidence := None)
        == single.(origin := [], feedSources := [], authoritative := None, confidence := None);
  }

  lemma ProvenanceAgrees(existing: Option<Edge>, source: Id, credibility: real, now: Instant)
    ensures
      var bulk, single := BulkRow(existing, source, credibility, now), WithFeed(existing, source, credibility, now);
      Elements(bulk.origin) == Elements(single.origin) && Elements(bulk.feedSources) == Elements(single.feedSources)
  {
    var e := existing.GetOr(Bare(now));
    AppendedElements(e.origin, AUTHORITATIVE);
    AppendedElements(e.feedSources, source);
    ElementsOfSorted(Elements(e.origin) + {AUTHORITATIVE});
    ElementsOfSorted(Elements(e.feedSources) + {source});
  }

  lemma NumbersAgree(existing: Option<Edge>, source: Id, credibility: real, now: Instant)
    ensures
      var bulk, single := BulkRow(existing, source, credibility, now), WithFeed(existing, source, credibility, now);
      bulk.authoritative == single.authoritative && bulk.confidence == single.confidence <==>
        FloorUnused(existing, credibility)
  {
  }

  lemma AppendedElements(s: seq<Id>, x: Id)
    ensures Elements(if x !in s then s + [x] else s) == Elements(s) + {x}
  {
  }

  /** Repeating the single upsert with the same inputs changes nothing. */
  lemma WithFeedIdempotent(existing: Option<Edge>, source: Id, credibility: real, now: Instant)
    ensures var once := WithFeed(existing, source, credibility, now);
      WithFeed(Some(once), source, credibility, now) == once
  {
    var e := existing.GetOr(Bare(now));
    ElementsOfSorted(Elements(e.origin) + {AUTHORITATIVE});
    ElementsOfSorted(Elements(e.feedSources) + {source});
    assert (Elements(e.origin) + {AUTHORITATIVE}) + {AUTHORITATIVE} == Elements(e.origin) + {AUTHORITATIVE};
    assert (Elements(e.feedSources) + {source}) + {source} == Elements(e.feedSources) + {source};
  }

  function PerKey(edges: Edges, rows: seq<Key>, source: Id, credibility: real, now: Instant): Edges {
    map k | k in edges.Keys + (set r | r in rows) ::
      if k in rows then WithFeed(Existing(edges, k), source, credibility, now) else edges[k]
  }

  lemma {:induction false} FoldedIsPerKey(edges: Edges, rows: seq<Key>, source: Id, credibility: real, now: Instant)
    ensures Folded(edges, rows, source, credibility, now) == PerKey(edges, rows, source, credibility, now)
  {
    if rows == [] {
      PerKeyOfNothing(edges, source, credibility, now);
    } else {
      FoldedIsPerKey(edges, rows[..|rows| - 1], source, credibility, now);
      FoldStep(edges, rows, source, credibility, now);
    }
  }

  lemma PerKeyOfNothing(edges: Edges, source: Id, credibility: real, now: Instant)
    ensures PerKey(edges, [], source, credibility, now) == edges
  {
  }

  /** The fold applies the upsert to what the edge was at first or to that upsert's own result,
      which is the same. */
  lemma FoldStep(edges: Edges, rows: seq<Key>, source: Id, credibility: real, now: Instant)
    requires rows != []
    requires Folded(edges, rows[..|rows| - 1], source, credibility, now)
      == PerKey(edges, rows[..|rows| - 1], source, credibility, now)
    ensures Folded(edges, rows, source, credibility, now) == PerKey(edges, rows, source, credibility, now)
  {
    var prior, key := rows[..|rows| - 1], rows[|rows| - 1];
    PerKeyAt(edges, prior, source, credibility, now, key);
    WithFeedIdempotent(Existing(edges, key), source, credibility, now);
    PerKeyGrows(edges, prior, source, credibility, now, key);
    assert rows == prior + [key];
  }

  lemma PerKeyAt(edges: Edges, rows: seq<Key>, source: Id, credibility: real, now: Instant, key: Key)
    ensures Existing(PerKey(edges, rows, source, credibility, now), key) ==
      if key in rows then Some(WithFeed(Existing(edges, key), source, credibility, now)) else Existing(edges, key)
  {
  }

  lemma PerKeyGrows(edges: Edges, rows: seq<Key>, source: Id, credibility: real, now: Instant, key: Key)
    ensures PerKey(edges, rows + [key], source, credibility, now) ==
      PerKey(edges, rows, source, credibility, now)[key := WithFeed(Existing(edges, key), source, credibility, now)]
  {
    assert forall k :: k in rows + [key] <==> k in rows || k == key;
  }

  /** For rows whose endpoints exist, duplicates included, the bulk query leaves the edges the
      fold of single upserts leaves exactly when no row's edge needs the floor of zero. */
  lemma {:induction false} BulkIsFoldOfSingles(edges: Edges, rows: seq<Key>, starts: set<Id>, ends: set<Id>,
                                               source: Id, credibility: real, now: Instant)
    requires forall k :: k in rows ==> k.0 in starts && k.1 in ends
    ensures
      var bulk := BulkResultEdges(edges, Keys(rows, starts, ends), source, credibility, now);
      var folded := Folded(edges, rows, source, credibility, now);
      && bulk.Keys == folded.Keys
      && ((forall k :: k in bulk ==> SameEdge(bulk[k], folded[k])) <==>
          (forall k :: k in rows ==> FloorUnused(Existing(edges, k), credibility)))
  {
    var keys := Keys(rows, starts, ends);
    var bulk := BulkResultEdges(edges, keys, source, credibility, now);
    var folded := Folded(edges, rows, source, credibility, now);
    FoldedIsPerKey(edges, rows, source, credibility, now);
    forall k | k in rows
      ensures k in bulk && (SameEdge(bulk[k], folded[k]) <==> FloorUnused(Existing(edges, k), credibility))
    {
      assert k in keys;
      RowAgrees(Existing(edges, k), source, credibility, now);
    }
  }

  /** A feed with credibility zero on a new edge: the single upsert stores zeroes, the bulk
      one leaves both properties unset. */
  lemma ZeroCredibilityDiffers(source: Id, now: Instant)
    ensures WithFeed(None, source, 0.0, now).confidence == Some(0.0)
    ensures BulkRow(None, source, 0.0, now).confidence == None
    ensures BulkRow(None, source, 0.0, now).authoritative == None
  {
  }
}
