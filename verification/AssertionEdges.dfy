/** Confidence of assertion edges: the authoritative and the inferred upsert of one edge, and
    any interleaving of them. */
module AssertionEdges {
  import opened Options
  import opened Ordering
  import opened Chronology
  import opened Formulas

  const AUTHORITATIVE: Id := "authoritative"
  const INFERRED: Id := "inferred"

  /** An absent list property reads as empty, so absence and emptiness are one value. */
  datatype Edge = Edge(
    origin: seq<Id>,
    feedSources: seq<Id>,
    authoritative: Option<real>,
    inferred: Option<real>,
    confidence: Option<real>,
    articles: seq<Id>,
    supporting: Option<nat>,
    contributing: seq<Id>,
    firstObserved: Option<Instant>,
    lastConfirmed: Option<Instant>)

  /** A relationship without properties. */
  const NO_PROPERTIES: Edge := Edge([], [], None, None, None, [], None, [], None, None)

  /** An edge just created. */
  function Bare(now: Instant): Edge {
    NO_PROPERTIES.(firstObserved := Some(now))
  }

  function Max(a: real, b: real): real {
    if a < b then b else a
  }

  // ---- The single upserts ----

  datatype Claim =
    | Feed(source: Id, credibility: real)
    | Story(cluster: Id, contribution: real)

  /** One upsert: what it claims, the articles it brings, and when. */
  datatype Upsert = Upsert(claim: Claim, articles: seq<Id>, now: Instant)

  function WithFeed(existing: Option<Edge>, source: Id, credibility: real, now: Instant): Edge {
    var e := existing.GetOr(Bare(now));
    var authoritative := Max(credibility, e.authoritative.GetOr(0.0));
    e.(origin := Sorted(Elements(e.origin) + {AUTHORITATIVE}),
       feedSources := Sorted(Elements(e.feedSources) + {source}),
       authoritative := Some(authoritative),
       confidence := Some(Max(authoritative, e.inferred.GetOr(0.0))),
       lastConfirmed := Some(now))
  }

  function Take(s: seq<Id>, cap: nat): seq<Id> {
    if |s| <= cap then s else s[..cap]
  }

  /** `[a for a in articles if a not in existing]`, repeats within `articles` kept. */
  function NotIn(articles: seq<Id>, existing: seq<Id>): seq<Id> {
    if articles == [] then []
    else
      var rest := NotIn(articles[1..], existing);
      if articles[0] in existing then rest else [articles[0]] + rest
  }

  function FoldIn(prior: real, contribution: real): real {
    1.0 - Times(1.0 - prior, 1.0 - contribution)
  }

  function WithStory(existing: Option<Edge>, cluster: Id, contribution: real, articles: seq<Id>, cap: nat,
                     now: Instant): Edge
  {
    var e := existing.GetOr(Bare(now));
    var seen := cluster in e.contributing;
    var inferred := if seen then e.inferred.GetOr(0.0)
                    else FoldIn(e.inferred.GetOr(0.0), contribution);
    var added := NotIn(articles, e.articles);
    e.(origin := Sorted(Elements(e.origin) + {INFERRED}),
       inferred := Some(inferred),
       confidence := Some(Max(e.authoritative.GetOr(0.0), inferred)),
       articles := if seen then e.articles else Take(e.articles + added, cap),
       supporting := Some(if seen then e.supporting.GetOr(|e.articles|)
                          else e.supporting.GetOr(|e.articles|) + |added|),
       contributing := Sorted(Elements(e.contributing) + {cluster}),
       lastConfirmed := Some(now))
  }

  function Applied(existing: Option<Edge>, u: Upsert, cap: nat): Edge {
    match u.claim
    case Feed(source, credibility) => WithFeed(existing, source, credibility, u.now)
    case Story(cluster, contribution) => WithStory(existing, cluster, contribution, u.articles, cap, u.now)
  }

  /** The edge after a sequence of upserts, starting from no edge. */
  function After(us: seq<Upsert>, cap: nat): Option<Edge> {
    if us == [] then None
    else Some(Applied(After(us[..|us| - 1], cap), us[|us| - 1], cap))
  }

  // ---- What the upserts add up to, independently of the fold ----

  /** The first contribution each story cluster brought. */
  ghost predicate FirstContributions(m: Contributions, us: seq<Upsert>) {
    && (forall i :: 0 <= i < |us| && us[i].claim.Story? ==> us[i].claim.cluster in m)
    && (forall c :: c in m ==> exists i :: FirstAt(us, c, i) && us[i].claim.contribution == m[c])
  }

  ghost predicate FirstAt(us: seq<Upsert>, c: Id, i: int) {
    && 0 <= i < |us| && us[i].claim.Story? && us[i].claim.cluster == c
    && forall j :: 0 <= j < i && us[j].claim.Story? ==> us[j].claim.cluster != c
  }

  /** `best` is the largest credibility any feed claimed, with floor zero. */
  ghost predicate BestCredibility(best: real, us: seq<Upsert>) {
    && best >= 0.0
    && (forall i :: 0 <= i < |us| && us[i].claim.Feed? ==> us[i].claim.credibility <= best)
    && (best == 0.0 || exists i :: 0 <= i < |us| && us[i].claim.Feed? && us[i].claim.credibility == best)
  }

  function Claims(us: seq<Upsert>): set<Claim> {
    set u | u in us :: u.claim
  }

  ghost predicate AnyFeed(claims: set<Claim>) {
    exists c :: c in claims && c.Feed?
  }

  ghost predicate AnyStory(claims: set<Claim>) {
    exists c :: c in claims && c.Story?
  }

  function FeedNames(claims: set<Claim>): set<Id> {
    set c | c in claims && c.Feed? :: c.source
  }

  /** The two stored components. */
  ghost predicate Components(e: Edge, m: Contributions, best: real, claims: set<Claim>) {
    && e.contributing == Sorted(m.Keys)
    && e.inferred == (if m == map[] then None else Some(NoisyOrOf(m)))
    && e.authoritative == (if AnyFeed(claims) then Some(best) else None)
    && (!AnyFeed(claims) ==> best == 0.0)
  }

  ghost predicate ConfidenceDerived(e: Edge) {
    e.confidence == Some(Max(e.authoritative.GetOr(0.0), e.inferred.GetOr(0.0)))
  }

  /** Who asserted the edge. */
  ghost predicate Provenance(e: Edge, claims: set<Claim>) {
    && Elements(e.origin) ==
         (if AnyFeed(claims) then {AUTHORITATIVE} else {}) + (if AnyStory(claims) then {INFERRED} else {})
    && Elements(e.feedSources) == FeedNames(claims)
  }

  lemma ClaimsGrow(us: seq<Upsert>)
    requires us != []
    ensures Claims(us) == Claims(us[..|us| - 1]) + {us[|us| - 1].claim}
  {
    assert us == us[..|us| - 1] + [us[|us| - 1]];
  }

  lemma FirstContributionsGrow(m: Contributions, us: seq<Upsert>)
    requires us != [] && FirstContributions(m, us[..|us| - 1])
    ensures
      var u := us[|us| - 1];
      FirstContributions(
        if u.claim.Story? && u.claim.cluster !in m then m[u.claim.cluster := u.claim.contribution] else m, us)
  {
    var last := |us| - 1;
    var prior, u := us[..last], us[last];
    var m' := if u.claim.Story? && u.claim.cluster !in m then m[u.claim.cluster := u.claim.contribution] else m;
    forall i | 0 <= i < |us| && us[i].claim.Story? ensures us[i].claim.cluster in m' {
      if i < last { assert prior[i] == us[i]; }
    }
    forall c | c in m' ensures exists i :: FirstAt(us, c, i) && us[i].claim.contribution == m'[c] {
      if c in m {
        var i :| FirstAt(prior, c, i) && prior[i].claim.contribution == m[c];
        assert FirstAt(prior, c, i);
        assert FirstAt(us, c, i);
      } else {
        assert FirstAt(us, c, last) by {
          forall j | 0 <= j < last && us[j].claim.Story? ensures us[j].claim.cluster != c {
            assert prior[j] == us[j];
          }
        }
      }
    }
  }

  lemma BestGrows(best: real, us: seq<Upsert>)
    requires us != [] && BestCredibility(best, us[..|us| - 1])
    ensures var u := us[|us| - 1];
      BestCredibility(if u.claim.Feed? then Max(u.claim.credibility, best) else best, us)
  {
    var last := |us| - 1;
    var u := us[last];
    forall i | 0 <= i < |us| && us[i].claim.Feed?
      ensures us[i].claim.credibility <= if u.claim.Feed? then Max(u.claim.credibility, best) else best
    {
      if i < last { assert us[..last][i] == us[i]; }
    }
    if best != 0.0 {
      var i :| 0 <= i < last && us[..last][i].claim.Feed? && us[..last][i].claim.credibility == best;
      assert us[i] == us[..last][i];
    }
  }

  lemma ElementsOfSorted(s: set<Id>)
    ensures Elements(Sorted(s)) == s
  {
  }

  lemma AnyGrows(claims: set<Claim>, c: Claim)
    ensures AnyFeed(claims + {c}) <==> AnyFeed(claims) || c.Feed?
    ensures AnyStory(claims + {c}) <==> AnyStory(claims) || c.Story?
    ensures FeedNames(claims + {c}) == FeedNames(claims) + if c.Feed? then {c.source} else {}
  {
    assert c in claims + {c};
    if AnyFeed(claims) {
      var d :| d in claims && d.Feed?;
      assert d in claims + {c};
    }
    if AnyStory(claims) {
      var d :| d in claims && d.Story?;
      assert d in claims + {c};
    }
  }

  lemma ProvenanceGrows(e: Option<Edge>, claims: set<Claim>, u: Upsert, cap: nat)
    requires Provenance(e.GetOr(Bare(u.now)), claims)
    ensures Provenance(Applied(e, u, cap), claims + {u.claim})
  {
    var prior := e.GetOr(Bare(u.now));
    AnyGrows(claims, u.claim);
    ElementsOfSorted(Elements(prior.origin) + {if u.claim.Feed? then AUTHORITATIVE else INFERRED});
    if u.claim.Feed? {
      ElementsOfSorted(Elements(prior.feedSources) + {u.claim.source});
    }
  }

  /** A cluster not yet counted folds into the noisy-OR; one already counted does nothing. */
  lemma StoryComponents(e: Option<Edge>, m: Contributions, best: real, claims: set<Claim>, u: Upsert, cap: nat)
    requires u.claim.Story? && Components(e.GetOr(Bare(u.now)), m, best, claims)
    ensures
      var c := u.claim.cluster;
      Components(Applied(e, u, cap), if c in m then m else m[c := u.claim.contribution], best, claims + {u.claim})
  {
    var c, x := u.claim.cluster, u.claim.contribution;
    var prior, next := e.GetOr(Bare(u.now)), Applied(e, u, cap);
    AnyGrows(claims, u.claim);
    assert next.authoritative == prior.authoritative;
    StoryInferred(prior, m, c, x);
    if c in m {
      assert next.inferred == prior.inferred && next.contributing == prior.contributing;
    } else {
      assert next.inferred == Some(NoisyOrOf(m[c := x]));
      assert next.contributing == Sorted(m[c := x].Keys);
    }
  }

  lemma StoryInferred(e: Edge, m: Contributions, c: Id, x: real)
    requires e.contributing == Sorted(m.Keys)
    requires e.inferred == if m == map[] then None else Some(NoisyOrOf(m))
    ensures c in e.contributing <==> c in m
    ensures Sorted(Elements(e.contributing) + {c}) == Sorted((if c in m then m else m[c := x]).Keys)
    ensures c in m ==> m != map[]
    ensures c !in m ==> m[c := x] != map[]
    ensures c !in m ==> NoisyOrOf(m[c := x]) == FoldIn(e.inferred.GetOr(0.0), x)
  {
    ElementsOfSorted(m.Keys);
    ResidualOfNothing();
    assert (if c in m then m else m[c := x]).Keys == m.Keys + {c};
    if c !in m {
      assert c in m[c := x];
      IncrementalFold(m, c, x);
    }
  }

  lemma ResidualOfNothing()
    ensures NoisyOrOf(map[]) == 0.0
  {
  }

  /** The source's `1 - (1 - prior) * (1 - contribution)` is the noisy-OR of one more entry. */
  lemma IncrementalFold(m: Contributions, c: Id, x: real)
    requires c !in m
    ensures NoisyOrOf(m[c := x]) == FoldIn(NoisyOrOf(m), x)
  {
    ResidualExtend(m, c, x);
    TimesCommutes(Residual(m), 1.0 - x);
    assert 1.0 - NoisyOrOf(m) == Residual(m);
  }

  lemma TimesCommutes(a: real, b: real)
    ensures Times(a, b) == Times(b, a)
  {
  }

  lemma FeedComponents(e: Option<Edge>, m: Contributions, best: real, claims: set<Claim>, u: Upsert, cap: nat)
    requires u.claim.Feed? && Components(e.GetOr(Bare(u.now)), m, best, claims)
    ensures Components(Applied(e, u, cap), m, Max(u.claim.credibility, best), claims + {u.claim})
  {
    AnyGrows(claims, u.claim);
  }

  /** Any interleaving of the two upserts on one edge: the authoritative part is the best
      credibility, the inferred part the noisy-OR of each cluster's first contribution, and
      the confidence the larger of the two. */
  lemma {:induction false} UpsertsDerive(us: seq<Upsert>, cap: nat, now: Instant) returns (m: Contributions, best: real)
    ensures FirstContributions(m, us) && BestCredibility(best, us)
    ensures
      var e := After(us, cap).GetOr(Bare(now));
      Components(e, m, best, Claims(us)) && Provenance(e, Claims(us)) && (us != [] ==> ConfidenceDerived(e))
  {
    if us == [] {
      m, best := map[], 0.0;
    } else {
      var last := |us| - 1;
      var u := us[last];
      m, best := UpsertsDerive(us[..last], cap, u.now);
      ClaimsGrow(us);
      FirstContributionsGrow(m, us);
      BestGrows(best, us);
      ProvenanceGrows(After(us[..last], cap), Claims(us[..last]), u, cap);
      if u.claim.Story? {
        StoryComponents(After(us[..last], cap), m, best, Claims(us[..last]), u, cap);
        m := if u.claim.cluster in m then m else m[u.claim.cluster := u.claim.contribution];
      } else {
        FeedComponents(After(us[..last], cap), m, best, Claims(us[..last]), u, cap);
        best := Max(u.claim.credibility, best);
      }
    }
  }

  /** The edge was first observed by its first upsert and last confirmed by its last, whichever
      kind they were and whether or not they brought anything new. */
  lemma {:induction false} ObservedAndConfirmed(us: seq<Upsert>, cap: nat)
    requires us != []
    ensures After(us, cap).value.firstObserved == Some(us[0].now)
    ensures After(us, cap).value.lastConfirmed == Some(us[|us| - 1].now)
  {
    if |us| > 1 {
      ObservedAndConfirmed(us[..|us| - 1], cap);
    }
  }

  /** Who asserts the edge is written out: a feed as "authoritative", a story as "inferred". */
  lemma OriginSaysWho(us: seq<Upsert>, cap: nat)
    requires us != []
    ensures forall w :: w in After(us, cap).value.origin <==>
      (w == "authoritative" && exists i :: 0 <= i < |us| && us[i].claim.Feed?) ||
      (w == "inferred" && exists i :: 0 <= i < |us| && us[i].claim.Story?)
  {
    AnyAmong(us);
    OriginElements(us, cap);
    var origin := After(us, cap).value.origin;
    assert forall w :: w in origin <==> w in Elements(origin);
  }

  lemma OriginElements(us: seq<Upsert>, cap: nat)
    requires us != []
    ensures Elements(After(us, cap).value.origin) ==
      (if AnyFeed(Claims(us)) then {"authoritative"} else {}) + if AnyStory(Claims(us)) then {"inferred"} else {}
  {
    var m, best := UpsertsDerive(us, cap, 0);
  }

  lemma AnyAmong(us: seq<Upsert>)
    ensures AnyFeed(Claims(us)) <==> exists i :: 0 <= i < |us| && us[i].claim.Feed?
    ensures AnyStory(Claims(us)) <==> exists i :: 0 <= i < |us| && us[i].claim.Story?
  {
    forall i | 0 <= i < |us| ensures us[i].claim in Claims(us) {
      assert us[i] in us;
    }
    if AnyFeed(Claims(us)) {
      var c :| c in Claims(us) && c.Feed?;
      var u :| u in us && u.claim == c;
      var i :| 0 <= i < |us| && us[i] == u;
      assert us[i].claim.Feed?;
    }
    if AnyStory(Claims(us)) {
      var c :| c in Claims(us) && c.Story?;
      var u :| u in us && u.claim == c;
      var i :| 0 <= i < |us| && us[i] == u;
      assert us[i].claim.Story?;
    }
  }

  // ---- Order ----

  /** Each cluster always brings the same contribution. */
  ghost predicate Consistent(claims: set<Claim>) {
    forall c, d :: c in claims && d in claims && c.Story? && d.Story? && c.cluster == d.cluster ==>
      c.contribution == d.contribution
  }

  lemma FirstContributionsAreClaims(m: Contributions, us: seq<Upsert>)
    requires FirstContributions(m, us)
    ensures forall c :: c in m ==> Story(c, m[c]) in Claims(us)
    ensures forall c :: c in Claims(us) && c.Story? ==> c.cluster in m
  {
    forall c | c in m ensures Story(c, m[c]) in Claims(us) {
      var i :| FirstAt(us, c, i) && us[i].claim.contribution == m[c];
      assert FirstAt(us, c, i);
      assert us[i] in us;
    }
    forall c | c in Claims(us) && c.Story? ensures c.cluster in m {
      var u :| u in us && u.claim == c;
      var i :| 0 <= i < |us| && us[i] == u;
    }
  }

  lemma FirstUnique(m: Contributions, n: Contributions, us: seq<Upsert>, vs: seq<Upsert>)
    requires FirstContributions(m, us) && FirstContributions(n, vs)
    requires Claims(us) == Claims(vs) && Consistent(Claims(us))
    ensures m == n
  {
    FirstContributionsAreClaims(m, us);
    FirstContributionsAreClaims(n, vs);
    forall c | c in m ensures c in n && m[c] == n[c] {
      assert Story(c, m[c]) in Claims(us) && Story(c, m[c]).cluster in n;
    }
    forall c | c in n ensures c in m {
      assert Story(c, n[c]) in Claims(us) && Story(c, n[c]).cluster in m;
    }
  }

  lemma BestIsOverClaims(best: real, us: seq<Upsert>)
    requires BestCredibility(best, us)
    ensures forall c :: c in Claims(us) && c.Feed? ==> c.credibility <= best
    ensures best == 0.0 || exists c :: c in Claims(us) && c.Feed? && c.credibility == best
  {
    forall c | c in Claims(us) && c.Feed? ensures c.credibility <= best {
      var u :| u in us && u.claim == c;
      var i :| 0 <= i < |us| && us[i] == u;
    }
    if best != 0.0 {
      var i :| 0 <= i < |us| && us[i].claim.Feed? && us[i].claim.credibility == best;
      assert us[i] in us;
      assert us[i].claim in Claims(us);
    }
  }

  lemma BestUnique(a: real, b: real, us: seq<Upsert>, vs: seq<Upsert>)
    requires BestCredibility(a, us) && BestCredibility(b, vs) && Claims(us) == Claims(vs)
    ensures a == b
  {
    BestIsOverClaims(a, us);
    BestIsOverClaims(b, vs);
  }

  /** Who asserts the edge and how strongly: origin and feeds as sets, the contributing clusters
      and the three confidences. The article list and the count beside it depend on order, and
      the timestamps on the clock; they are not compared. */
  ghost predicate SameAssertion(e: Edge, f: Edge) {
    && Elements(e.origin) == Elements(f.origin) && Elements(e.feedSources) == Elements(f.feedSources)
    && e.authoritative == f.authoritative && e.inferred == f.inferred && e.confidence == f.confidence
    && e.contributing == f.contributing
  }

  /** Every history that makes these claims, in any order and with any redelivery, leaves the
      same assertion. */
  ghost predicate OrderIrrelevant(claims: set<Claim>, cap: nat) {
    forall us, vs :: us != [] && vs != [] && Claims(us) == Claims(vs) == claims ==>
      SameAssertion(After(us, cap).value, After(vs, cap).value)
  }

  /** Some cluster brings nothing but contributions of exactly one, which pins the noisy-OR at
      one whatever the others bring. */
  ghost predicate Certain(claims: set<Claim>) {
    exists d :: d in claims && d.Story? &&
      forall c :: c in claims && c.Story? && c.cluster == d.cluster ==> c.contribution == 1.0
  }

  /** The order of upserts is irrelevant if and only if no cluster contradicts itself, or some
      cluster is certain and no contradiction can show. */
  lemma {:induction false} UpsertOrderIrrelevant(claims: set<Claim>, cap: nat)
    ensures OrderIrrelevant(claims, cap) <==> Consistent(claims) || Certain(claims)
  {
    if Consistent(claims) || Certain(claims) {
      NoContradictionShows(claims, cap);
    } else {
      var c, x, y := Contradiction(claims);
      ContradictionShows(claims, c, x, y, cap);
    }
  }

  lemma Contradiction(claims: set<Claim>) returns (k: Id, x: real, y: real)
    requires !Consistent(claims)
    ensures Story(k, x) in claims && Story(k, y) in claims && x != y
  {
    var c, d :| c in claims && d in claims && c.Story? && d.Story? && c.cluster == d.cluster &&
                c.contribution != d.contribution;
    k, x, y := c.cluster, c.contribution, d.contribution;
    assert Story(k, x) == c && Story(k, y) == d;
  }

  lemma NoContradictionShows(claims: set<Claim>, cap: nat)
    requires Consistent(claims) || Certain(claims)
    ensures OrderIrrelevant(claims, cap)
  {
    forall us, vs | us != [] && vs != [] && Claims(us) == Claims(vs) == claims
      ensures SameAssertion(After(us, cap).value, After(vs, cap).value)
    {
      OrdersAgree(us, vs, cap);
    }
  }

  lemma OrdersAgree(us: seq<Upsert>, vs: seq<Upsert>, cap: nat)
    requires us != [] && vs != [] && Claims(us) == Claims(vs)
    requires Consistent(Claims(us)) || Certain(Claims(us))
    ensures SameAssertion(After(us, cap).value, After(vs, cap).value)
  {
    var m, a := UpsertsDerive(us, cap, 0);
    var n, b := UpsertsDerive(vs, cap, 0);
    BestUnique(a, b, us, vs);
    SameNoisyOr(m, n, us, vs);
  }

  lemma SameNoisyOr(m: Contributions, n: Contributions, us: seq<Upsert>, vs: seq<Upsert>)
    requires FirstContributions(m, us) && FirstContributions(n, vs) && Claims(us) == Claims(vs)
    requires Consistent(Claims(us)) || Certain(Claims(us))
    ensures m.Keys == n.Keys && NoisyOrOf(m) == NoisyOrOf(n) && (m == map[] <==> n == map[])
  {
    CountedClusters(m, us);
    CountedClusters(n, vs);
    assert m == map[] <==> m.Keys == {};
    if Consistent(Claims(us)) {
      FirstUnique(m, n, us, vs);
    } else {
      var d := CertainCluster(Claims(us));
      CertainCounts(m, us, d);
      CertainCounts(n, vs, d);
    }
  }

  lemma CertainCluster(claims: set<Claim>) returns (d: Id)
    requires Certain(claims)
    ensures d in Clusters(claims) && forall x: real :: Story(d, x) in claims ==> x == 1.0
  {
    var c :| c in claims && c.Story? &&
      forall c' :: c' in claims && c'.Story? && c'.cluster == c.cluster ==> c'.contribution == 1.0;
    d := c.cluster;
    forall x: real | Story(d, x) in claims ensures x == 1.0 {
      assert Story(d, x).cluster == d;
    }
  }

  lemma CertainCounts(m: Contributions, us: seq<Upsert>, d: Id)
    requires FirstContributions(m, us) && d in m && forall x: real :: Story(d, x) in Claims(us) ==> x == 1.0
    ensures NoisyOrOf(m) == 1.0
  {
    FirstContributionsAreClaims(m, us);
    CertainPins(m, d);
  }

  lemma CertainPins(m: Contributions, c: Id)
    requires c in m && m[c] == 1.0
    ensures NoisyOrOf(m) == 1.0
  {
    ResidualSplit(m, c);
  }

  function InferredAfter(us: seq<Upsert>, cap: nat): Option<real> {
    if us == [] then None else After(us, cap).value.inferred
  }

  lemma AgreedInferred(us: seq<Upsert>, vs: seq<Upsert>, cap: nat)
    requires Claims(us) == Claims(vs) != {} && OrderIrrelevant(Claims(us), cap)
    ensures InferredAfter(us, cap) == InferredAfter(vs, cap)
  {
    assert us != [] && vs != [];
    assert SameAssertion(After(us, cap).value, After(vs, cap).value);
  }

  /** Without a certain cluster every cluster has a contribution other than one; leading with
      those, and with either side of a contradiction, gives two histories that differ. */
  lemma ContradictionShows(claims: set<Claim>, k: Id, x: real, y: real, cap: nat)
    requires Story(k, x) in claims && Story(k, y) in claims && x != y && !Certain(claims)
    ensures !OrderIrrelevant(claims, cap)
  {
    var picks := Picks(claims);
    ChosenWith(picks, claims, k, x);
    ChosenWith(picks, claims, k, y);
    var us := LedBy(claims, picks[k := x], cap);
    var vs := LedBy(claims, picks[k := y], cap);
    NoisyOrsDiffer(picks, k, x, y);
    if OrderIrrelevant(claims, cap) {
      AgreedInferred(us, vs, cap);
    }
  }

  lemma ChosenWith(picks: Contributions, claims: set<Claim>, k: Id, x: real)
    requires Chosen(picks, claims) && Story(k, x) in claims
    ensures Chosen(picks[k := x], claims) && picks[k := x] != map[]
  {
    assert Story(k, x).cluster in Clusters(claims);
    assert k in picks[k := x];
  }

  lemma NoisyOrsDiffer(picks: Contributions, k: Id, x: real, y: real)
    requires x != y && forall j :: j in picks ==> picks[j] != 1.0
    ensures NoisyOrOf(picks[k := x]) != NoisyOrOf(picks[k := y])
  {
    var m, n, rest := picks[k := x], picks[k := y], picks - {k};
    assert m - {k} == rest && n - {k} == rest;
    NoneCertain(rest);
    ResidualSplit(m, k);
    ResidualSplit(n, k);
    DistinctFactors(1.0 - x, 1.0 - y, Residual(rest));
  }

  lemma DistinctFactors(a: real, b: real, c: real)
    requires a != b && c != 0.0
    ensures Times(a, c) != Times(b, c)
  {
    assert (a - b) * c != 0.0;
  }

  lemma {:induction false} NoneCertain(m: Contributions)
    requires forall k :: k in m ==> m[k] != 1.0
    ensures Residual(m) != 0.0
    decreases |m|
  {
    if m != map[] {
      var k := Pick(m);
      NoneCertain(m - {k});
      DistinctFactors(1.0 - m[k], 0.0, Residual(m - {k}));
    }
  }

  function Clusters(claims: set<Claim>): set<Id> {
    set c | c in claims && c.Story? :: c.cluster
  }

  /** One contribution per cluster, none of them one. */
  lemma Picks(claims: set<Claim>) returns (picks: Contributions)
    requires !Certain(claims)
    ensures Chosen(picks, claims) && forall k :: k in picks ==> picks[k] != 1.0
  {
    forall k | k in Clusters(claims) ensures exists x: real :: Story(k, x) in claims && x != 1.0 {
      PickExists(claims, k);
    }
    picks := map k | k in Clusters(claims) :: Uncertain(claims, k);
  }

  lemma PickExists(claims: set<Claim>, k: Id)
    requires !Certain(claims) && k in Clusters(claims)
    ensures exists x: real :: Story(k, x) in claims && x != 1.0
  {
    var d :| d in claims && d.Story? && d.cluster == k;
    var c :| c in claims && c.Story? && c.cluster == k && c.contribution != 1.0;
    assert Story(k, c.contribution) == c;
  }

  ghost function Uncertain(claims: set<Claim>, k: Id): (x: real)
    requires exists x: real :: Story(k, x) in claims && x != 1.0
    ensures Story(k, x) in claims && x != 1.0
  {
    var x: real :| Story(k, x) in claims && x != 1.0; x
  }

  /** `m` has every cluster of the claims, with a contribution it claims. */
  ghost predicate Chosen(m: Contributions, claims: set<Claim>) {
    m.Keys == Clusters(claims) && forall k :: k in m ==> Story(k, m[k]) in claims
  }

  /** One story delivery for each cluster listed. */
  function Leading(ks: seq<Id>, m: Contributions): seq<Upsert>
    requires forall k :: k in ks ==> k in m
  {
    if ks == [] then [] else [Upsert(Story(ks[0], m[ks[0]]), [], 0)] + Leading(ks[1..], m)
  }

  /** For any choice of contributions some history makes the claims and counts that choice. */
  lemma LedBy(claims: set<Claim>, m: Contributions, cap: nat) returns (us: seq<Upsert>)
    requires m != map[] && Chosen(m, claims)
    ensures Claims(us) == claims && InferredAfter(us, cap) == Some(NoisyOrOf(m))
  {
    var ks, base := Sorted(m.Keys), [];
    base := Listing(claims);
    us := Leading(ks, m) + base;
    LeadingClaims(ks, m, base);
    var n, best := UpsertsDerive(us, cap, 0);
    LeadCounts(ks, m, base, n);
  }

  lemma LeadCounts(ks: seq<Id>, m: Contributions, base: seq<Upsert>, n: Contributions)
    requires (forall k :: k in ks <==> k in m) && Chosen(m, Claims(base))
    requires FirstContributions(n, Leading(ks, m) + base) && Claims(Leading(ks, m) + base) == Claims(base)
    ensures n == m
  {
    CountedClusters(n, Leading(ks, m) + base);
    forall k | k in m ensures n[k] == m[k] {
      LeadIsFirst(ks, m, base, n, k);
    }
  }

  lemma CountedClusters(n: Contributions, us: seq<Upsert>)
    requires FirstContributions(n, us)
    ensures n.Keys == Clusters(Claims(us))
  {
    FirstContributionsAreClaims(n, us);
    forall k | k in n ensures k in Clusters(Claims(us)) {
      assert Story(k, n[k]).cluster == k;
    }
  }

  lemma LeadIsFirst(ks: seq<Id>, m: Contributions, base: seq<Upsert>, n: Contributions, k: Id)
    requires (forall k :: k in ks <==> k in m) && k in m && k in n
    requires FirstContributions(n, Leading(ks, m) + base)
    ensures n[k] == m[k]
  {
    var us := Leading(ks, m) + base;
    var j :| 0 <= j < |ks| && ks[j] == k;
    LeadingAt(ks, m, base, j);
    var i :| FirstAt(us, k, i) && us[i].claim.contribution == n[k];
    assert FirstAt(us, k, i);
    assert i <= j;
    LeadingAt(ks, m, base, i);
  }

  lemma {:induction false} LeadingClaims(ks: seq<Id>, m: Contributions, base: seq<Upsert>)
    requires forall k :: k in ks ==> k in m && Story(k, m[k]) in Claims(base)
    ensures Claims(Leading(ks, m) + base) == Claims(base)
  {
    if ks == [] {
      assert Leading(ks, m) + base == base;
    } else {
      LeadingClaims(ks[1..], m, base);
      var u, rest := Upsert(Story(ks[0], m[ks[0]]), [], 0), Leading(ks[1..], m) + base;
      assert Leading(ks, m) + base == [u] + rest;
      assert Claims([u] + rest) == {u.claim} + Claims(rest) by {
        assert forall v :: v in [u] + rest <==> v == u || v in rest;
        assert u in [u] + rest;
      }
    }
  }

  lemma {:induction false} LeadingAt(ks: seq<Id>, m: Contributions, base: seq<Upsert>, i: nat)
    requires i < |ks| && forall k :: k in ks ==> k in m
    ensures |Leading(ks, m)| == |ks|
    ensures (Leading(ks, m) + base)[i].claim == Story(ks[i], m[ks[i]])
  {
    if i > 0 {
      LeadingAt(ks[1..], m, base, i - 1);
    } else if |ks| > 1 {
      LeadingAt(ks[1..], m, base, 0);
    }
  }

  /** Any finite set of claims can be made. */
  lemma {:induction false} Listing(claims: set<Claim>) returns (us: seq<Upsert>)
    ensures Claims(us) == claims
  {
    if claims == {} {
      us := [];
    } else {
      var c :| c in claims;
      us := Listing(claims - {c});
      us := us + [Upsert(c, [], 0)];
      ClaimsGrow(us);
    }
  }

  /** A cluster's first delivery wins for good: whatever history follows, the noisy-OR holds
      that contribution. */
  lemma FirstDeliveryPins(us: seq<Upsert>, later: seq<Upsert>, c: Id, i: nat, cap: nat) returns (m: Contributions)
    requires FirstAt(us, c, i)
    ensures FirstContributions(m, us + later) && c in m && m[c] == us[i].claim.contribution
    ensures After(us + later, cap).value.inferred == Some(NoisyOrOf(m))
  {
    var best;
    m, best := UpsertsDerive(us + later, cap, 0);
    assert (us + later)[i].claim.cluster in m;
    var j :| FirstAt(us + later, c, j) && (us + later)[j].claim.contribution == m[c];
    assert FirstAt(us + later, c, j);
    assert forall k :: 0 <= k < |us| ==> (us + later)[k] == us[k];
    assert j == i;
  }

  // ---- Range and growth ----

  ghost predicate UnitClaims(claims: set<Claim>) {
    forall c :: c in claims ==>
      0.0 <= (match c case Feed(_, credibility) => credibility case Story(_, contribution) => contribution) <= 1.0
  }

  /** With every input in [0, 1] the confidence stays there. */
  lemma ConfidenceInUnit(us: seq<Upsert>, cap: nat)
    requires us != [] && UnitClaims(Claims(us))
    ensures After(us, cap).value.confidence.Some? && 0.0 <= After(us, cap).value.confidence.value <= 1.0
    ensures After(us, cap).value.inferred.GetOr(0.0) <= 1.0
  {
    var m, best := UpsertsDerive(us, cap, 0);
    FirstContributionsAreClaims(m, us);
    BestIsOverClaims(best, us);
    forall c | c in m ensures 0.0 <= m[c] <= 1.0 {
      assert Story(c, m[c]) in Claims(us);
    }
    ResidualInUnit(m);
  }

  lemma AppliedNeverLowers(e: Edge, u: Upsert, cap: nat)
    requires ConfidenceDerived(e) && e.inferred.GetOr(0.0) <= 1.0
    requires u.claim.Story? ==> 0.0 <= u.claim.contribution <= 1.0
    ensures Applied(Some(e), u, cap).confidence.GetOr(0.0) >= e.confidence.GetOr(0.0)
  {
    if u.claim.Story? {
      var x, y := 1.0 - u.claim.contribution, 1.0 - e.inferred.GetOr(0.0);
      ProductMonotone(x, 1.0, y, y);
      TimesCommutes(y, x);
    }
  }

  /** And no upsert lowers it. */
  lemma UpsertNeverLowers(us: seq<Upsert>, u: Upsert, cap: nat)
    requires us != [] && UnitClaims(Claims(us + [u]))
    ensures After(us + [u], cap).value.confidence.GetOr(0.0) >= After(us, cap).value.confidence.GetOr(0.0)
  {
    ClaimsGrow(us + [u]);
    assert (us + [u])[..|us|] == us;
    ConfidenceInUnit(us, cap);
    var m, best := UpsertsDerive(us, cap, 0);
    assert u.claim in Claims(us + [u]);
    AppliedNeverLowers(After(us, cap).value, u, cap);
  }
}
