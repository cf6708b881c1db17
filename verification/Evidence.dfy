/** Confidence of one provisional node: the event path, which absorbs one story's
    contribution at a time, and the sweep, which rebuilds from the MENTIONS edges. */
module Evidence {
  import opened Options
  import opened Ordering
  import opened Formulas

  /** One story's contribution to the node, before clamping. */
  datatype Contribution = Contribution(cluster: Id, value: real)

  /** A MENTIONS edge with what the queries read beside it. */
  datatype Mention = Mention(article: Id, cluster: Option<Id>, credibility: Option<real>, extraction: Option<real>)

  /** An article without a cluster counts as its own; missing numbers count as zero. */
  function Contributed(m: Mention): Contribution {
    Contribution(m.cluster.GetOr(m.article), m.credibility.GetOr(0.0) * m.extraction.GetOr(0.0))
  }

  // ---- What a mention is worth, read off its own fields ----

  /** Story `k` is the one mention `m` counts for. */
  predicate CountsFor(m: Mention, k: Id) {
    m.cluster == Some(k) || (m.cluster.None? && m.article == k)
  }

  /** `w` is what it is worth: credibility times extraction confidence, nothing when either is
      missing, kept within [0, 1]. */
  predicate Worth(m: Mention, w: real) {
    if m.credibility.None? || m.extraction.None? then w == 0.0
    else
      var product := Times(m.credibility.value, m.extraction.value);
      0.0 <= w <= 1.0 && (w > product ==> w == 0.0) && (w < product ==> w == 1.0)
  }

  /** `m` has exactly the stories the mentions count for, each at the most any is worth. */
  ghost predicate CountsMentions(m: Contributions, mentions: set<Mention>) {
    && (forall x, k, w :: x in mentions && CountsFor(x, k) && Worth(x, w) ==> k in m && w <= m[k])
    && (forall k :: k in m ==> exists x :: x in mentions && CountsFor(x, k) && Worth(x, m[k]))
  }

  lemma MentionIsWorth(x: Mention)
    ensures CountsFor(x, Contributed(x).cluster) && Worth(x, Clamp01(Contributed(x).value))
    ensures forall k :: CountsFor(x, k) ==> k == Contributed(x).cluster
    ensures forall w :: Worth(x, w) ==> w == Clamp01(Contributed(x).value)
  {
  }

  lemma MentionIsCounted(m: Contributions, mentions: set<Mention>, x: Mention, k: Id, w: real)
    requires MaxOf(m, EvidenceOf(mentions)) && x in mentions && CountsFor(x, k) && Worth(x, w)
    ensures k in m && w <= m[k]
  {
    MentionIsWorth(x);
    assert Contributed(x) in EvidenceOf(mentions);
  }

  lemma CountedIsMentioned(m: Contributions, mentions: set<Mention>, k: Id)
    requires MaxOf(m, EvidenceOf(mentions)) && k in m
    ensures exists x :: x in mentions && CountsFor(x, k) && Worth(x, m[k])
  {
    var e :| e in EvidenceOf(mentions) && e.cluster == k && Clamp01(e.value) == m[k];
    var x :| x in mentions && Contributed(x) == e;
    MentionIsWorth(x);
  }

  /** The maximum of the evidence is that map. */
  lemma EvidenceCountsMentions(m: Contributions, mentions: set<Mention>)
    requires MaxOf(m, EvidenceOf(mentions))
    ensures CountsMentions(m, mentions)
  {
    forall x, k, w | x in mentions && CountsFor(x, k) && Worth(x, w) ensures k in m && w <= m[k] {
      MentionIsCounted(m, mentions, x, k, w);
    }
    forall k | k in m ensures exists x :: x in mentions && CountsFor(x, k) && Worth(x, m[k]) {
      CountedIsMentioned(m, mentions, k);
    }
  }

  // ---- What the event path does to the map of per-cluster contributions ----

  function Absorb(m: Contributions, e: Contribution): Contributions {
    if e.cluster in m && Clamp01(e.value) <= m[e.cluster] then m
    else m[e.cluster := Clamp01(e.value)]
  }

  function AbsorbAll(m: Contributions, es: seq<Contribution>): Contributions {
    if es == [] then m
    else Absorb(AbsorbAll(m, es[..|es| - 1]), es[|es| - 1])
  }

  /** `m` is the pointwise maximum of the clamped contributions in `es`. */
  ghost predicate MaxOf(m: Contributions, es: set<Contribution>) {
    && (forall e :: e in es ==> e.cluster in m && Clamp01(e.value) <= m[e.cluster])
    && (forall c :: c in m ==> exists e :: e in es && e.cluster == c && Clamp01(e.value) == m[c])
  }

  lemma MaxOfUnique(m: Contributions, n: Contributions, es: set<Contribution>)
    requires MaxOf(m, es) && MaxOf(n, es)
    ensures m == n
  {
    forall c | c in m ensures c in n && m[c] <= n[c] {
      var e :| e in es && e.cluster == c && Clamp01(e.value) == m[c];
    }
    forall c | c in n ensures c in m && n[c] <= m[c] {
      var e :| e in es && e.cluster == c && Clamp01(e.value) == n[c];
    }
  }

  lemma MaxOfInUnit(m: Contributions, es: set<Contribution>)
    requires MaxOf(m, es)
    ensures InUnit(m)
  {
    forall c | c in m ensures 0.0 <= m[c] <= 1.0 {
      var e :| e in es && e.cluster == c && Clamp01(e.value) == m[c];
    }
  }

  lemma MaxOfMonotone(m: Contributions, n: Contributions, es: set<Contribution>, more: set<Contribution>)
    requires MaxOf(m, es) && MaxOf(n, more) && es <= more
    ensures Below(m, n) && InUnit(m) && InUnit(n)
    ensures 0.0 <= NoisyOrOf(m) <= NoisyOrOf(n) <= 1.0
  {
    MaxOfInUnit(m, es);
    MaxOfInUnit(n, more);
    forall c | c in m ensures c in n && m[c] <= n[c] {
      var e :| e in es && e.cluster == c && Clamp01(e.value) == m[c];
    }
    NoisyOrMonotone(m, n);
  }

  lemma AbsorbIsMax(m: Contributions, es: set<Contribution>, e: Contribution)
    requires MaxOf(m, es)
    ensures MaxOf(Absorb(m, e), es + {e})
  {
    var m' := Absorb(m, e);
    forall c | c in m' ensures exists x :: x in es + {e} && x.cluster == c && Clamp01(x.value) == m'[c] {
      if m' != m && c == e.cluster {
        assert e in es + {e};
      } else {
        var x :| x in es && x.cluster == c && Clamp01(x.value) == m[c];
        assert x in es + {e};
      }
    }
  }

  /** Starting from nothing, any sequence of events leaves the maximum of those seen. */
  lemma {:induction false} EventsAreMax(es: seq<Contribution>)
    ensures MaxOf(AbsorbAll(map[], es), Elements(es))
  {
    if es != [] {
      var last := |es| - 1;
      EventsAreMax(es[..last]);
      AbsorbIsMax(AbsorbAll(map[], es[..last]), Elements(es[..last]), es[last]);
      assert es == es[..last] + [es[last]];
      assert Elements(es) == Elements(es[..last]) + {es[last]};
    }
  }

  /** Order and redelivery do not matter: only which contributions were seen. */
  lemma EventOrderIrrelevant(es: seq<Contribution>, fs: seq<Contribution>)
    requires Elements(es) == Elements(fs)
    ensures AbsorbAll(map[], es) == AbsorbAll(map[], fs)
  {
    EventsAreMax(es);
    EventsAreMax(fs);
    MaxOfUnique(AbsorbAll(map[], es), AbsorbAll(map[], fs), Elements(es));
  }

  /** One more event never lowers the confidence, and it stays in [0, 1]. */
  lemma ConfidenceNeverFalls(es: seq<Contribution>, e: Contribution)
    ensures 0.0 <= NoisyOrOf(AbsorbAll(map[], es)) <= NoisyOrOf(AbsorbAll(map[], es + [e])) <= 1.0
  {
    EventsAreMax(es);
    EventsAreMax(es + [e]);
    MaxOfMonotone(AbsorbAll(map[], es), AbsorbAll(map[], es + [e]), Elements(es), Elements(es + [e]));
  }

  // ---- The node ----

  /** `dict(zip(ids, scores))`: the last of two equal ids wins. */
  function Zip(ids: seq<Id>, scores: seq<real>): Contributions
    requires |ids| == |scores|
  {
    if ids == [] then map[]
    else Zip(ids[..|ids| - 1], scores[..|ids| - 1])[ids[|ids| - 1] := scores[|ids| - 1]]
  }

  lemma {:induction false} ZipSorted(m: Contributions, ids: seq<Id>)
    requires Increasing(ids) && forall k :: k in ids ==> k in m
    ensures Zip(ids, ScoresAt(m, ids)).Keys == Elements(ids)
    ensures forall k :: k in ids ==> Zip(ids, ScoresAt(m, ids))[k] == m[k]
  {
    if ids != [] {
      var last := |ids| - 1;
      IncreasingPrefix(ids);
      ZipSorted(m, ids[..last]);
      assert ScoresAt(m, ids)[..last] == ScoresAt(m, ids[..last]);
    }
  }

  /** Writing a map as the two sorted lists and zipping them back gives the map. */
  lemma ZipRoundTrip(m: Contributions)
    ensures Zip(Sorted(m.Keys), Listed(m)) == m
  {
    SortedIncreases(m.Keys);
    ZipSorted(m, Sorted(m.Keys));
  }

  /** The three properties the queries read and write together. */
  datatype Stored = Stored(clusters: seq<Id>, scores: seq<real>, confidence: real) {
    predicate Parallel() {
      |clusters| == |scores|
    }

    function ByCluster(): Contributions
      requires Parallel()
    {
      Zip(clusters, scores)
    }
  }

  /** How a map of contributions is written. */
  function Written(m: Contributions): Stored {
    Stored(Sorted(m.Keys), Listed(m), Combined(Listed(m)))
  }

  function Refined(s: Stored, e: Contribution): Stored
    requires s.Parallel()
  {
    var m := Absorb(s.ByCluster(), e);
    if m == s.ByCluster() then s else Written(m)
  }

  /** Past the early return the map has changed, so the new lists are written. */
  lemma RefinedWrites(s: Stored, e: Contribution, m: Contributions)
    requires s.Parallel() && !(e.cluster in s.ByCluster() && Clamp01(e.value) <= s.ByCluster()[e.cluster])
    requires m == s.ByCluster()[e.cluster := Clamp01(e.value)]
    ensures Refined(s, e) == Written(m)
  {
    assert m[e.cluster] == Clamp01(e.value);
    assert m != s.ByCluster();
  }

  lemma WrittenReadsBack(m: Contributions)
    ensures Written(m).Parallel() && Written(m).ByCluster() == m
  {
    ZipRoundTrip(m);
  }

  /** `now` is `was` with the mention's story raised to what the mention is worth, if that is
      more; every other story is as it was. */
  ghost predicate RefinedFrom(was: Contributions, x: Mention, now: Contributions) {
    forall k, w :: CountsFor(x, k) && Worth(x, w) ==>
      && now.Keys == was.Keys + {k} && now[k] == (if k in was && w <= was[k] then was[k] else w)
      && forall j :: j in was && j != k ==> now[j] == was[j]
  }

  lemma RefinedByMention(s: Stored, x: Mention)
    requires s.Parallel()
    ensures Refined(s, Contributed(x)).Parallel()
    ensures RefinedFrom(s.ByCluster(), x, Refined(s, Contributed(x)).ByCluster())
  {
    MentionIsWorth(x);
    WrittenReadsBack(Absorb(s.ByCluster(), Contributed(x)));
  }

  /** Deliveries in order, each reading what the one before it wrote. */
  function Delivered(s: Stored, es: seq<Contribution>): (r: Stored)
    requires s.Parallel()
    ensures r.Parallel()
  {
    if es == [] then s
    else
      var before := Delivered(s, es[..|es| - 1]);
      var m := Absorb(before.ByCluster(), es[|es| - 1]);
      WrittenReadsBack(m);
      Refined(before, es[|es| - 1])
  }

  /** From empty lists and any initial confidence, a non-empty sequence of events leaves the
      written form of the maximum: sorted distinct ids, a score for each, and the noisy-OR. */
  lemma {:induction false} DeliveredIsWritten(initial: real, es: seq<Contribution>)
    requires es != []
    ensures Delivered(Stored([], [], initial), es) == Written(AbsorbAll(map[], es))
    ensures Written(AbsorbAll(map[], es)).confidence == NoisyOrOf(AbsorbAll(map[], es))
    ensures MaxOf(AbsorbAll(map[], es), Elements(es))
  {
    var last := |es| - 1;
    if es[..last] != [] {
      DeliveredIsWritten(initial, es[..last]);
      WrittenReadsBack(AbsorbAll(map[], es[..last]));
    }
    EventsAreMax(es);
    MaxOfInUnit(AbsorbAll(map[], es), Elements(es));
    CombinedIsNoisyOr(AbsorbAll(map[], es));
  }

  /** `NotProvisional` is the source's None: nothing there to refine. */
  datatype Refinement = NotProvisional | CorruptLists | Confidence(value: real)

  class EntityNode {
    var provisional: bool
    var confidence: real
    var clusters: seq<Id>
    var scores: seq<real>

    constructor (provisional: bool, confidence: real)
      ensures this.provisional == provisional && Snapshot() == Stored([], [], confidence)
    {
      this.provisional := provisional;
      this.confidence := confidence;
      clusters, scores := [], [];
    }

    function Snapshot(): Stored
      reads this
    {
      Stored(clusters, scores, confidence)
    }

    /** `_WRITE`: the two lists and the confidence, in one SET. */
    method Write(byCluster: Contributions)
      modifies `clusters, `scores, `confidence
      ensures Snapshot() == Written(byCluster)
    {
      clusters := Sorted(byCluster.Keys);
      scores := ScoresAt(byCluster, clusters);
      confidence := NoisyOr(scores);
    }

    /** `refine_provisional_confidence`. A canonical node, or one whose lists disagree in
        length, is left alone; so is one whose cluster already counts at least as much. */
    method Refine(cluster: Id, contribution: real) returns (r: Refinement)
      modifies `clusters, `scores, `confidence
      ensures !provisional ==> r == NotProvisional && Snapshot() == old(Snapshot())
      ensures provisional && !old(Snapshot()).Parallel() ==> r == CorruptLists && Snapshot() == old(Snapshot())
      ensures provisional && old(Snapshot()).Parallel() ==>
        Snapshot() == Refined(old(Snapshot()), Contribution(cluster, contribution)) && r == Confidence(confidence)
    {
      if !provisional {
        return NotProvisional;
      }
      if |clusters| != |scores| {
        return CorruptLists;
      }
      var clamped := Clamp01(contribution);
      var byCluster := Zip(clusters, scores);
      ghost var before := Snapshot();
      if cluster in byCluster && clamped <= byCluster[cluster] {
        return Confidence(confidence);
      }
      byCluster := byCluster[cluster := clamped];
      RefinedWrites(before, Contribution(cluster, contribution), byCluster);
      Write(byCluster);
      return Confidence(confidence);
    }

    /** `refine_from_mention`: the same, with the contribution read off the mention. `None` is
        a mention that is not there, as when its edge was retracted before the event. */
    method RefineFromMention(mention: Option<Mention>) returns (r: Refinement)
      modifies `clusters, `scores, `confidence
      ensures !provisional || mention.None? ==> r == NotProvisional && Snapshot() == old(Snapshot())
      ensures provisional && mention.Some? && !old(Snapshot()).Parallel() ==>
        r == CorruptLists && Snapshot() == old(Snapshot())
      ensures provisional && mention.Some? && old(Snapshot()).Parallel() ==>
        Snapshot() == Refined(old(Snapshot()), Contributed(mention.value)) && r == Confidence(confidence)
      ensures provisional && mention.Some? && old(Snapshot()).Parallel() ==>
        Snapshot().Parallel() && RefinedFrom(old(Snapshot()).ByCluster(), mention.value, Snapshot().ByCluster())
    {
      if mention.None? {
        return NotProvisional;
      }
      var e := Contributed(mention.value);
      if provisional && |clusters| == |scores| {
        RefinedByMention(Snapshot(), mention.value);
      }
      r := Refine(e.cluster, e.value);
    }

    /** `_CONFIDENCE_WRITE`: per-cluster maximum of the raw values, clamped, listed in cluster
        order and combined. It never reads the stored lists, so it also mends corrupt ones. */
    method Rescan(mentions: set<Mention>)
      modifies `clusters, `scores, `confidence
      ensures !provisional ==> Snapshot() == old(Snapshot())
      ensures provisional ==>
        exists m :: MaxOf(m, EvidenceOf(mentions)) && Snapshot() == Written(m)
      ensures provisional ==>
        && Snapshot().Parallel() && CountsMentions(Snapshot().ByCluster(), mentions)
        && confidence == NoisyOrOf(Snapshot().ByCluster())
    {
      if !provisional {
        return;
      }
      var best: Contributions := map[];
      var rest := mentions;
      while rest != {}
        invariant rest <= mentions
        invariant RawMaxOf(best, EvidenceOf(mentions - rest))
        decreases rest
      {
        var mention :| mention in rest;
        var e := Contributed(mention);
        EvidenceGrows(mentions, rest, mention);
        RawMaxExtends(best, EvidenceOf(mentions - rest), e);
        if e.cluster !in best || best[e.cluster] < e.value {
          best := best[e.cluster := e.value];
        }
        rest := rest - {mention};
      }
      assert mentions - rest == mentions;
      ClampOfMax(best, EvidenceOf(mentions));
      var clamped := Clamped(best);
      EvidenceCountsMentions(clamped, mentions);
      MaxOfInUnit(clamped, EvidenceOf(mentions));
      CombinedIsNoisyOr(clamped);
      WrittenReadsBack(clamped);
      Write(clamped);
    }
  }

  // ---- The sweep's arithmetic ----

  function EvidenceOf(mentions: set<Mention>): set<Contribution> {
    set m | m in mentions :: Contributed(m)
  }

  function Clamped(m: Contributions): Contributions {
    map c | c in m :: Clamp01(m[c])
  }

  ghost predicate RawMaxOf(m: Contributions, es: set<Contribution>) {
    && (forall e :: e in es ==> e.cluster in m && e.value <= m[e.cluster])
    && (forall c :: c in m ==> Contribution(c, m[c]) in es)
  }

  lemma EvidenceGrows(mentions: set<Mention>, rest: set<Mention>, mention: Mention)
    requires mention in rest && rest <= mentions
    ensures EvidenceOf(mentions - (rest - {mention})) == EvidenceOf(mentions - rest) + {Contributed(mention)}
  {
    assert mentions - (rest - {mention}) == (mentions - rest) + {mention};
  }

  lemma RawMaxExtends(m: Contributions, es: set<Contribution>, e: Contribution)
    requires RawMaxOf(m, es)
    ensures RawMaxOf(if e.cluster !in m || m[e.cluster] < e.value then m[e.cluster := e.value] else m, es + {e})
  {
  }

  /** Clamping the maximum is the maximum of the clamped. */
  lemma ClampOfMax(m: Contributions, es: set<Contribution>)
    requires RawMaxOf(m, es)
    ensures MaxOf(Clamped(m), es)
  {
    var m' := Clamped(m);
    forall c | c in m' ensures exists e :: e in es && e.cluster == c && Clamp01(e.value) == m'[c] {
      assert Contribution(c, m[c]) in es;
    }
  }

  // ---- The two paths agree ----

  /** When the events seen are exactly the evidence in the graph, the sweep writes what the
      event path already wrote, lists and confidence alike: a no-op. */
  lemma {:induction false} SweepAgreesWithEvents(initial: real, es: seq<Contribution>, mentions: set<Mention>,
                                                 rebuilt: Contributions)
    requires es != [] && Elements(es) == EvidenceOf(mentions)
    requires MaxOf(rebuilt, EvidenceOf(mentions))
    ensures Written(rebuilt) == Delivered(Stored([], [], initial), es)
  {
    DeliveredIsWritten(initial, es);
    MaxOfUnique(rebuilt, AbsorbAll(map[], es), Elements(es));
  }

  /** With no mention left the sweep writes empty lists and confidence zero. */
  lemma SweepOfNothing(rebuilt: Contributions)
    requires MaxOf(rebuilt, EvidenceOf({}))
    ensures Written(rebuilt) == Stored([], [], 0.0)
  {
    assert EvidenceOf({}) == {};
    MaxOfUnique(rebuilt, map[], {});
  }

  /** Lost events only ever leave the node at or below what the sweep restores. */
  lemma SweepRestoresLostEvents(es: seq<Contribution>, mentions: set<Mention>, rebuilt: Contributions)
    requires Elements(es) <= EvidenceOf(mentions) && MaxOf(rebuilt, EvidenceOf(mentions))
    ensures Below(AbsorbAll(map[], es), rebuilt)
    ensures NoisyOrOf(AbsorbAll(map[], es)) <= Written(rebuilt).confidence <= 1.0
  {
    EventsAreMax(es);
    MaxOfMonotone(AbsorbAll(map[], es), rebuilt, Elements(es), EvidenceOf(mentions));
    CombinedIsNoisyOr(rebuilt);
  }

  /** Retracting mentions can only lower what the sweep writes. */
  lemma RetractionLowersSweep(mentions: set<Mention>, kept: set<Mention>, before: Contributions, after: Contributions)
    requires kept <= mentions
    requires MaxOf(before, EvidenceOf(mentions)) && MaxOf(after, EvidenceOf(kept))
    ensures Written(after).confidence <= Written(before).confidence
  {
    MaxOfMonotone(after, before, EvidenceOf(kept), EvidenceOf(mentions));
    CombinedIsNoisyOr(before);
    CombinedIsNoisyOr(after);
  }

  // ---- Stories count once, unclustered articles apart ----

  ghost predicate OneStory(mentions: set<Mention>, c: Id) {
    mentions != {} && forall x :: x in mentions ==> x.cluster == Some(c)
  }

  /** However many articles of one story mention the node, the sweep stores the story alone and
      the confidence is what the best of them is worth. */
  lemma StoryCountsOnce(m: Contributions, mentions: set<Mention>, c: Id)
    requires OneStory(mentions, c) && CountsMentions(m, mentions)
    ensures m.Keys == {c} && NoisyOrOf(m) == m[c]
    ensures exists x :: x in mentions && Worth(x, NoisyOrOf(m))
    ensures forall x, w :: x in mentions && Worth(x, w) ==> w <= NoisyOrOf(m)
  {
    var x :| x in mentions;
    MentionIsWorth(x);
    assert CountsFor(x, c) && c in m;
    assert m.Keys == {c};
    ResidualSplit(m, c);
    assert m - {c} == map[];
  }

  /** A story with one mention stands at what that is worth. */
  lemma OneMention(m: Contributions, mentions: set<Mention>, x: Mention, k: Id, w: real)
    requires CountsMentions(m, mentions) && x in mentions && CountsFor(x, k) && Worth(x, w)
    requires forall y :: y in mentions && CountsFor(y, k) ==> y == x
    ensures k in m && m[k] == w
  {
    var y :| y in mentions && CountsFor(y, k) && Worth(y, m[k]);
    MentionIsWorth(x);
  }

  lemma ResidualOfTwo(m: Contributions, a: Id, b: Id)
    requires m.Keys == {a, b} && a != b
    ensures Residual(m) == Times(1.0 - m[a], 1.0 - m[b])
  {
    var rest := m - {a};
    ResidualSplit(m, a);
    assert rest.Keys == {b};
    ResidualSplit(rest, b);
    assert rest - {b} == map[];
  }

  lemma KeysOfMentions(m: Contributions, mentions: set<Mention>)
    requires CountsMentions(m, mentions)
    ensures forall k :: k in m ==> exists x :: x in mentions && CountsFor(x, k)
  {
    forall k | k in m ensures exists x :: x in mentions && CountsFor(x, k) {
      var x :| x in mentions && CountsFor(x, k) && Worth(x, m[k]);
    }
  }

  /** Two articles that have no cluster count apart: each takes away its share of the rest. */
  lemma UnclusteredCountApart(m: Contributions, x: Mention, y: Mention, p: real, q: real)
    requires x.cluster.None? && y.cluster.None? && x.article != y.article
    requires Worth(x, p) && Worth(y, q) && CountsMentions(m, {x, y})
    ensures m.Keys == {x.article, y.article}
    ensures 1.0 - NoisyOrOf(m) == Times(1.0 - p, 1.0 - q)
  {
    OneMention(m, {x, y}, x, x.article, p);
    OneMention(m, {x, y}, y, y.article, q);
    KeysOfMentions(m, {x, y});
    assert m.Keys == {x.article, y.article};
    ResidualOfTwo(m, x.article, y.article);
  }

  // ---- Cluster merges ----

  /** The same evidence after its clusters were renamed, two of them perhaps to one. */
  ghost function Relabelled(es: set<Contribution>, rename: Id -> Id): set<Contribution> {
    set e | e in es :: Contribution(rename(e.cluster), e.value)
  }

  /** Every cluster of `n` has its own cluster of `m` that counts as much. */
  ghost predicate Picked(n: Contributions, m: Contributions, rename: Id -> Id) {
    forall d :: d in n ==> exists c :: c in m && rename(c) == d && n[d] <= m[c]
  }

  lemma {:induction false} PickedIsBelow(n: Contributions, m: Contributions, rename: Id -> Id)
    requires InUnit(n) && InUnit(m) && Picked(n, m, rename)
    ensures NoisyOrOf(n) <= NoisyOrOf(m)
    decreases |n|
  {
    ResidualInUnit(m);
    if n != map[] {
      var d := Pick(n);
      var c :| c in m && rename(c) == d && n[d] <= m[c];
      var n', m' := n - {d}, m - {c};
      forall e | e in n' ensures exists b :: b in m' && rename(b) == e && n'[e] <= m'[b] {
        var b :| b in m && rename(b) == e && n[e] <= m[b];
        assert b in m';
      }
      PickedIsBelow(n', m', rename);
      ResidualInUnit(m');
      ResidualInUnit(n');
      ResidualSplit(m, c);
      ResidualSplit(n, d);
      ProductMonotone(1.0 - m[c], 1.0 - n[d], Residual(m'), Residual(n'));
    }
  }

  lemma RelabelledIsPicked(m: Contributions, n: Contributions, es: set<Contribution>, rename: Id -> Id)
    requires MaxOf(m, es) && MaxOf(n, Relabelled(es, rename))
    ensures Picked(n, m, rename)
  {
    forall d | d in n ensures exists c :: c in m && rename(c) == d && n[d] <= m[c] {
      var r :| r in Relabelled(es, rename) && r.cluster == d && Clamp01(r.value) == n[d];
      var e :| e in es && r == Contribution(rename(e.cluster), e.value);
      assert e.cluster in m && rename(e.cluster) == d;
    }
  }

  /** Merging clusters never raises what the sweep writes: evidence that was counted apart is
      counted once. */
  lemma MergeLowersSweep(mentions: set<Mention>, merged: set<Mention>, rename: Id -> Id, before: Contributions,
                         after: Contributions)
    requires EvidenceOf(merged) == Relabelled(EvidenceOf(mentions), rename)
    requires MaxOf(before, EvidenceOf(mentions)) && MaxOf(after, EvidenceOf(merged))
    ensures Written(after).confidence <= Written(before).confidence
  {
    RelabelledIsPicked(before, after, EvidenceOf(mentions), rename);
    MaxOfInUnit(before, EvidenceOf(mentions));
    MaxOfInUnit(after, EvidenceOf(merged));
    PickedIsBelow(after, before, rename);
    CombinedIsNoisyOr(before);
    CombinedIsNoisyOr(after);
  }
}
