/** The supporting-article count of an inferred edge: it never undercounts, and it is exact
    on precisely the histories given here, below the cap of the stored list and past it. */
module AssertionArticles {
  import opened Options
  import opened Ordering
  import opened AssertionEdges

  /** The article list stored on the edge. */
  function Stored(us: seq<Upsert>, cap: nat): seq<Id> {
    if us == [] then [] else After(us, cap).value.articles
  }

  /** The count stored beside it; an edge without one counts its list. */
  function Supporting(us: seq<Upsert>, cap: nat): nat {
    if us == [] then 0 else After(us, cap).value.supporting.GetOr(|Stored(us, cap)|)
  }

  /** Delivery `i` folds a cluster in: a story of a cluster not yet on the edge. Only such a
      delivery reads its articles. */
  predicate FoldsIn(us: seq<Upsert>, i: nat, cap: nat)
    requires i < |us|
  {
    us[i].claim.Story? && (i == 0 || us[i].claim.cluster !in After(us[..i], cap).value.contributing)
  }

  /** Articles of the deliveries that were folded in. */
  function Counted(us: seq<Upsert>, cap: nat): set<Id> {
    if us == [] then {}
    else
      var last := |us| - 1;
      Counted(us[..last], cap) + if FoldsIn(us, last, cap) then Elements(us[last].articles) else {}
  }

  ghost predicate CountInvariant(articles: seq<Id>, supporting: nat, counted: set<Id>, cap: nat) {
    && Elements(articles) <= counted && |articles| <= cap && |articles| <= supporting
    && supporting >= |counted|
  }

  lemma {:induction false} NotInElements(articles: seq<Id>, existing: seq<Id>)
    ensures Elements(NotIn(articles, existing)) == Elements(articles) - Elements(existing)
  {
    if articles != [] {
      NotInElements(articles[1..], existing);
      var rest := NotIn(articles[1..], existing);
      assert Elements(articles) == {articles[0]} + Elements(articles[1..]);
      assert Elements([articles[0]] + rest) == {articles[0]} + Elements(rest);
    }
  }

  /** Filtering keeps the order: entry by entry, what is not there yet. */
  lemma {:induction false} NotInKeepsOrder(first: seq<Id>, rest: seq<Id>, existing: seq<Id>)
    ensures NotIn(first + rest, existing) == NotIn(first, existing) + NotIn(rest, existing)
    ensures forall a :: NotIn([a], existing) == if a in existing then [] else [a]
  {
    if first == [] {
      assert first + rest == rest;
    } else {
      assert (first + rest)[1..] == first[1..] + rest;
      NotInKeepsOrder(first[1..], rest, existing);
    }
    forall a ensures NotIn([a], existing) == if a in existing then [] else [a] {
      assert [a][1..] == [];
    }
  }

  lemma {:induction false} NotInDistinct(articles: seq<Id>, existing: seq<Id>)
    requires Distinct(articles)
    ensures Distinct(NotIn(articles, existing))
  {
    if articles != [] {
      var a, rest := articles[0], NotIn(articles[1..], existing);
      DistinctTail(articles);
      NotInDistinct(articles[1..], existing);
      NotInElements(articles[1..], existing);
      forall k | 0 <= k < |rest| ensures rest[k] != a {
        assert rest[k] in Elements(rest);
      }
    }
  }

  lemma DistinctTail(s: seq<Id>)
    requires s != [] && Distinct(s)
    ensures Distinct(s[1..]) && s[0] !in Elements(s[1..])
  {
    assert forall i :: 0 <= i < |s[1..]| ==> s[1..][i] == s[i + 1];
  }

  /** How the articles not yet stored relate to the counted ones. */
  lemma AddedArticles(stored: seq<Id>, counted: set<Id>, articles: seq<Id>)
    requires Elements(stored) <= counted
    ensures
      var added := NotIn(articles, stored);
      && counted + Elements(articles) == counted + Elements(added)
      && |counted + Elements(added)| == |counted| + |Elements(added)| - |counted * Elements(added)|
      && Elements(stored + added) == Elements(stored) + Elements(added)
      && |Elements(added)| <= |added| && (|Elements(added)| == |added| <==> Distinct(added))
  {
    NotInElements(articles, stored);
    ElementsCount(NotIn(articles, stored));
  }

  lemma TakenElements(s: seq<Id>, cap: nat)
    ensures Elements(Take(s, cap)) <= Elements(s)
    ensures |Take(s, cap)| == if |s| <= cap then |s| else cap
  {
  }

  /** One delivery that is folded in. */
  lemma CountStep(stored: seq<Id>, supporting: nat, counted: set<Id>, articles: seq<Id>, cap: nat)
    requires CountInvariant(stored, supporting, counted, cap)
    ensures
      var added := NotIn(articles, stored);
      CountInvariant(Take(stored + added, cap), supporting + |added|, counted + Elements(articles), cap)
  {
    AddedArticles(stored, counted, articles);
    TakenElements(stored + NotIn(articles, stored), cap);
  }

  /** The count is exact after it when it was before and everything added is new: no article
      twice and none that was counted already. Slack in the count never goes away again. */
  lemma SlackStep(stored: seq<Id>, supporting: nat, counted: set<Id>, articles: seq<Id>, cap: nat)
    requires CountInvariant(stored, supporting, counted, cap)
    ensures
      var added := NotIn(articles, stored);
      supporting + |added| == |counted + Elements(articles)| <==>
        supporting == |counted| && Distinct(added) && Elements(added) !! counted
  {
    var added := NotIn(articles, stored);
    var common := counted * Elements(added);
    AddedArticles(stored, counted, articles);
    assert |counted + Elements(articles)| == |counted| + |Elements(added)| - |common|;
    MeetsNothing(counted, Elements(added));
  }

  lemma MeetsNothing(a: set<Id>, b: set<Id>)
    ensures |a * b| == 0 <==> b !! a
  {
    if a * b == {} {
      forall x | x in a ensures x !in b {
        assert x !in a * b;
      }
    }
  }

  lemma NothingCounted(cap: nat)
    ensures CountInvariant([], 0, {}, cap) && Counted([], cap) == {}
  {
    assert Elements<Id>([]) == {};
  }

  /** What the last delivery does to the list, the count and the counted articles. */
  lemma LastDelivery(us: seq<Upsert>, cap: nat)
    requires us != []
    ensures
      var last := |us| - 1;
      var prior, articles := us[..last], us[last].articles;
      var added := NotIn(articles, Stored(prior, cap));
      if FoldsIn(us, last, cap) then
        && Stored(us, cap) == Take(Stored(prior, cap) + added, cap)
        && Supporting(us, cap) == Supporting(prior, cap) + |added|
        && Counted(us, cap) == Counted(prior, cap) + Elements(articles)
      else
        && Stored(us, cap) == Stored(prior, cap) && Supporting(us, cap) == Supporting(prior, cap)
        && Counted(us, cap) == Counted(prior, cap)
  {
    var last := |us| - 1;
    assert After(us, cap) == Some(Applied(After(us[..last], cap), us[last], cap));
  }

  /** Over any run of upserts the count is at least the number of distinct articles counted,
      past the cap as well. */
  lemma {:induction false} NeverUndercounts(us: seq<Upsert>, cap: nat)
    ensures CountInvariant(Stored(us, cap), Supporting(us, cap), Counted(us, cap), cap)
  {
    if us == [] {
      NothingCounted(cap);
    } else {
      var last := |us| - 1;
      var prior := us[..last];
      NeverUndercounts(prior, cap);
      LastDelivery(us, cap);
      CountStep(Stored(prior, cap), Supporting(prior, cap), Counted(prior, cap), us[last].articles, cap);
    }
  }

  /** The stored list only ever grows at its end, and not at all once it is full: the articles
      kept past the cap are the first ones. */
  lemma StoredGrowsAtEnd(us: seq<Upsert>, cap: nat)
    requires us != []
    ensures Stored(us[..|us| - 1], cap) <= Stored(us, cap)
    ensures FoldsIn(us, |us| - 1, cap) ==>
      var prior := Stored(us[..|us| - 1], cap);
      Stored(us, cap) <= prior + NotIn(us[|us| - 1].articles, prior) &&
      |Stored(us, cap)| == if |prior| + |NotIn(us[|us| - 1].articles, prior)| <= cap
                           then |prior| + |NotIn(us[|us| - 1].articles, prior)| else cap
  {
    NeverUndercounts(us[..|us| - 1], cap);
    LastDelivery(us, cap);
  }

  // ---- When the count is exact ----

  /** If delivery `i` is folded in, what it adds is new: no article twice, and none that was
      counted earlier and is no longer stored. */
  ghost predicate AddsOnlyNew(us: seq<Upsert>, i: nat, cap: nat)
    requires i < |us|
  {
    FoldsIn(us, i, cap) ==>
      var added := NotIn(us[i].articles, Stored(us[..i], cap));
      Distinct(added) && Elements(added) !! Counted(us[..i], cap)
  }

  ghost predicate AllNew(us: seq<Upsert>, cap: nat) {
    forall i :: 0 <= i < |us| ==> AddsOnlyNew(us, i, cap)
  }

  lemma AllNewStep(us: seq<Upsert>, cap: nat)
    requires us != []
    ensures AllNew(us, cap) <==> AllNew(us[..|us| - 1], cap) && AddsOnlyNew(us, |us| - 1, cap)
  {
    var last := |us| - 1;
    forall i | 0 <= i < last ensures AddsOnlyNew(us[..last], i, cap) <==> AddsOnlyNew(us, i, cap) {
      assert us[..last][..i] == us[..i];
    }
  }

  lemma CountStays(us: seq<Upsert>, cap: nat)
    requires us != []
    ensures
      var prior := us[..|us| - 1];
      Supporting(us, cap) == |Counted(us, cap)| <==>
        Supporting(prior, cap) == |Counted(prior, cap)| && AddsOnlyNew(us, |us| - 1, cap)
  {
    var last := |us| - 1;
    var prior := us[..last];
    NeverUndercounts(prior, cap);
    LastDelivery(us, cap);
    if FoldsIn(us, last, cap) {
      SlackStep(Stored(prior, cap), Supporting(prior, cap), Counted(prior, cap), us[last].articles, cap);
    }
  }

  /** The count is the number of distinct articles if and only if every folded-in delivery adds
      only new ones, whatever the cap. */
  lemma {:induction false} CountIsExact(us: seq<Upsert>, cap: nat)
    ensures Supporting(us, cap) == |Counted(us, cap)| <==> AllNew(us, cap)
  {
    if us == [] {
      NothingCounted(cap);
    } else {
      CountIsExact(us[..|us| - 1], cap);
      AllNewStep(us, cap);
      CountStays(us, cap);
    }
  }

  /** Folded-in deliveries of the pipeline are the members of a cluster, each with a unique key. */
  ghost predicate DistinctLists(us: seq<Upsert>, cap: nat) {
    forall i :: 0 <= i < |us| && FoldsIn(us, i, cap) ==> Distinct(us[i].articles)
  }

  /** Delivery `i` brings back no article that was counted and has fallen off the stored list. */
  ghost predicate BringsNoneBack(us: seq<Upsert>, i: nat, cap: nat)
    requires i < |us|
  {
    FoldsIn(us, i, cap) ==> Elements(us[i].articles) * Counted(us[..i], cap) <= Elements(Stored(us[..i], cap))
  }

  lemma NewForDistinctList(us: seq<Upsert>, i: nat, cap: nat)
    requires i < |us| && (FoldsIn(us, i, cap) ==> Distinct(us[i].articles))
    ensures AddsOnlyNew(us, i, cap) <==> BringsNoneBack(us, i, cap)
  {
    if FoldsIn(us, i, cap) {
      var articles, stored := us[i].articles, Stored(us[..i], cap);
      NotInDistinct(articles, stored);
      NotInElements(articles, stored);
    }
  }

  /** For such deliveries the count goes wrong exactly when one of them brings back an article
      that was counted and has fallen off the stored list. */
  lemma {:induction false} PipelineCountIsExact(us: seq<Upsert>, cap: nat)
    requires DistinctLists(us, cap)
    ensures Supporting(us, cap) == |Counted(us, cap)| <==>
      forall i :: 0 <= i < |us| ==> BringsNoneBack(us, i, cap)
  {
    CountIsExact(us, cap);
    forall i | 0 <= i < |us| ensures AddsOnlyNew(us, i, cap) <==> BringsNoneBack(us, i, cap) {
      NewForDistinctList(us, i, cap);
    }
  }

  // ---- Below the cap ----

  /** The stored list holds exactly the counted articles, each once, and the count is theirs. */
  ghost predicate ListAndCountExact(us: seq<Upsert>, cap: nat) {
    && Elements(Stored(us, cap)) == Counted(us, cap)
    && |Stored(us, cap)| == Supporting(us, cap) == |Counted(us, cap)|
  }

  /** If delivery `i` is folded in, it repeats no article that was not stored before it. */
  ghost predicate RepeatFree(us: seq<Upsert>, i: nat, cap: nat)
    requires i < |us|
  {
    FoldsIn(us, i, cap) ==> Distinct(NotIn(us[i].articles, Stored(us[..i], cap)))
  }

  ghost predicate NoRepeats(us: seq<Upsert>, cap: nat) {
    forall i :: 0 <= i < |us| ==> RepeatFree(us, i, cap)
  }

  lemma NoRepeatsPrior(us: seq<Upsert>, cap: nat)
    requires us != [] && NoRepeats(us, cap)
    ensures NoRepeats(us[..|us| - 1], cap)
  {
    var last := |us| - 1;
    forall i | 0 <= i < last ensures RepeatFree(us[..last], i, cap) {
      assert us[..last][..i] == us[..i] && RepeatFree(us, i, cap);
    }
  }

  lemma CountedGrows(us: seq<Upsert>, cap: nat)
    requires us != []
    ensures |Counted(us[..|us| - 1], cap)| <= |Counted(us, cap)|
  {
    var a, b := Counted(us[..|us| - 1], cap), Counted(us, cap);
    assert b == a + (b - a);
  }

  /** A delivery that fits under the cap is stored whole. */
  lemma ListStep(stored: seq<Id>, counted: set<Id>, articles: seq<Id>, cap: nat)
    requires Elements(stored) == counted && |stored| == |counted|
    requires Distinct(NotIn(articles, stored)) && |counted + Elements(articles)| <= cap
    ensures
      var added := NotIn(articles, stored);
      && Elements(Take(stored + added, cap)) == counted + Elements(articles)
      && |Take(stored + added, cap)| == |stored| + |added| == |counted + Elements(articles)|
  {
    var added := NotIn(articles, stored);
    NotInElements(articles, stored);
    AddedArticles(stored, counted, articles);
    assert counted * Elements(added) == {};
  }

  lemma {:induction false} RoomForAll(us: seq<Upsert>, cap: nat)
    requires |Counted(us, cap)| <= cap && NoRepeats(us, cap)
    ensures ListAndCountExact(us, cap)
  {
    if us == [] {
      NothingCounted(cap);
    } else {
      var last := |us| - 1;
      var prior := us[..last];
      CountedGrows(us, cap);
      NoRepeatsPrior(us, cap);
      RoomForAll(prior, cap);
      LastDelivery(us, cap);
      if FoldsIn(us, last, cap) {
        assert RepeatFree(us, last, cap);
        ListStep(Stored(prior, cap), Counted(prior, cap), us[last].articles, cap);
      }
    }
  }

  /** List and count are exact together if and only if all articles fit under the cap and no
      folded-in delivery repeats a new one. */
  lemma {:induction false} ListAndCountAreExact(us: seq<Upsert>, cap: nat)
    ensures ListAndCountExact(us, cap) <==> |Counted(us, cap)| <= cap && NoRepeats(us, cap)
  {
    if |Counted(us, cap)| <= cap && NoRepeats(us, cap) {
      RoomForAll(us, cap);
    }
    if ListAndCountExact(us, cap) {
      NeverUndercounts(us, cap);
      CountIsExact(us, cap);
      forall i | 0 <= i < |us| ensures RepeatFree(us, i, cap) {
        assert AddsOnlyNew(us, i, cap);
      }
    }
  }

  /** So for the pipeline's deliveries the count is exact below the cap, as is the list. */
  lemma {:induction false} ExactBelowCap(us: seq<Upsert>, cap: nat)
    requires DistinctLists(us, cap)
    ensures |Counted(us, cap)| <= cap ==> Supporting(us, cap) == |Counted(us, cap)|
    ensures ListAndCountExact(us, cap) <==> |Counted(us, cap)| <= cap
  {
    ListAndCountAreExact(us, cap);
    forall i | 0 <= i < |us| ensures RepeatFree(us, i, cap) {
      if FoldsIn(us, i, cap) {
        NotInDistinct(us[i].articles, Stored(us[..i], cap));
      }
    }
  }

  /** A list that names one new article twice: counted twice, however small the list. */
  lemma RepeatOvercounts(cluster: Id, x: real, a: Id, cap: nat)
    ensures Supporting([Upsert(Story(cluster, x), [a, a], 0)], cap) == 2
    ensures Counted([Upsert(Story(cluster, x), [a, a], 0)], cap) == {a}
  {
    var u := Upsert(Story(cluster, x), [a, a], 0);
    assert [u][..0] == [];
    assert [a, a][1..] == [a] && [a][1..] == [];
    assert NotIn([a], []) == [a];
    assert NotIn([a, a], []) == [a] + [a];
    assert After([u], cap) == Some(Applied(None, u, cap));
    assert Elements([a, a]) == {a};
    assert Counted([], cap) == {};
  }
}
