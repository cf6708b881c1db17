# Threat-intel platform: verified models

Dafny models of the parts of the platform whose comments promise an order, a concurrency or a
coverage guarantee, with proofs of those guarantees. Neo4j and DynamoDB appear only as maps and
sets of nodes, edges and rows; each operation is the state change it makes.

| files | what they model |
|---|---|
| `Clustering`, `ClusterInvariants`, `ClusterComponents`, `ClusterProtocol`, `ClusterBehaviours`, `ClusterProgress` | story clustering: one assignment, what every assignment keeps, clusters as connected components, and concurrent transactions that lock, read and commit, what every behaviour of them keeps and what one alone can do |
| `Formulas`, `Evidence`, `EvidenceProtocol` | confidence of a provisional node: the event path, the sweep's rebuild, and both racing for the node lock |
| `AssertionEdges`, `AssertionArticles`, `AssertionStore` | assertion edges: the two upserts in any interleaving, the article count, and the bulk upsert against the single one |
| `Versions`, `AssetSweep` | version ranges, and the reconciliation of AFFECTS edges |
| `Paging`, `Withdrawal`, `PruneSweep` | cursor pages, the withdrawal phase, the two-scan prune phase |
| `NvdFreshness`, `NvdConvergence` | which of several racing NVD payloads decides a CVE's CWE edges, and when all orders agree |
| `RateLimiter` | the sliding-window limiter over a whole history |
| `RoundRobin` | fair selection of recent stories |
| `Poller` | publish-then-store polling with crashes |
| `Options`, `Ordering`, `Chronology` | absent values, the order on ids, parsed publication dates |

Ids are strings in code-point order. Numbers the platform keeps as floats are reals. A parsed
date is an integer with the minimum timestamp as sentinel; a null, empty or unparseable date is
`None`. Hashes are injective. Rows that a query returns in no stated order are taken in any order.

Where the code and what is written about it differ, the model follows the code:

- The bulk authoritative upsert is called the batched equivalent of the single one. It is, except
  for edges on which the single one's floor of zero matters: `AssertionStore.BulkIsFoldOfSingles`
  gives the exact condition and `AssertionStore.ZeroCredibilityDiffers` an instance.
- The supporting-article count is called exact below the cap. The function by itself needs one
  thing more there, that no folded-in delivery repeats an article not yet stored; its only
  caller always provides that, since the list is the members of a story cluster
  (src/nlp/dedup/handler.py:72-82) by their unique key (src/common/schema_bootstrap.py:21). So
  the comment is right of the pipeline (`AssertionArticles.ExactBelowCap`). The cap is not what
  decides: `AssertionArticles.CountIsExact` and `AssertionArticles.PipelineCountIsExact` give the
  exact condition, below it and past it.
- The asset sweep is called a full reconciliation. It is when driven until it reports done. The
  schedule of infra/stacks/assets_stack.py:82-94 makes one call a day, and its comment defers the
  loop until asset counts call for it: one call reconciles everything, whatever edges there
  were, exactly when all assets fit in one page or there is no CVE
  (`AssetSweep.OneCallIsNotTheSweep`).

`dafny verify dfyconfig.toml` checks the project.

## Model

| member | source | states |
|---|---|---|
| `Clustering.ArticleGraph.LockClosure` | src/nlp/dedup/clustering.py:148-171 | the closure loop ends with exactly the seed and every article sharing a cluster with one of the seed's existing articles under lock |
| `Clustering.ArticleGraph.AssignCluster` | src/nlp/dedup/clustering.py:142-223 | one transaction either finds no article of its seed and writes nothing, or leaves the graph of one atomic assignment, having locked exactly the touched articles |
| `Clustering.ArticleGraph.OldestCluster` | src/nlp/dedup/clustering.py:188-199 | the id kept is that of the earliest clustered member, the smallest id among ties |
| `Clustering.ArticleGraph.OldestMember` | src/nlp/dedup/clustering.py:192-197 | no member of the cluster has a smaller chronological key |
| `Clustering.ArticleGraph.Elect` | src/nlp/dedup/clustering.py:201-209 | nobody is earlier, or as early and more credible, than the representative, whatever order the rows come in; read off the fields, it is dated where any is, none is earlier, and at its own instant, or among dateless ones, none has a more credible source |
| `Clustering.TouchedIsClosed` | src/nlp/dedup/clustering.py:148-171 | one round of cluster membership closes the seed: the touched set brings no further cluster in |
| `ClusterInvariants.StampMembers` | src/nlp/dedup/clustering.py:211-221 | restamping makes the touched set one cluster, empties every absorbed cluster and leaves every other cluster's membership alone |
| `ClusterInvariants.AssignKeepsWellElected` | src/nlp/dedup/clustering.py:201-221 | exactly one representative per cluster, minimal in the election order, carrying the member count, nobody else carrying either mark: kept by every assignment |
| `ClusterInvariants.AssignPartition` | src/nlp/dedup/clustering.py:142-223 | after an assignment two articles share a cluster exactly when both were touched, or neither was and they already did |
| `ClusterInvariants.AssignRelabels` | src/nlp/dedup/clustering.py:211-221 | to everything that counts articles by cluster, or by themselves while they have none, an assignment is a renaming of labels |
| `ClusterInvariants.BridgeKeepsOldest` | src/nlp/dedup/clustering.py:188-199 | for each absorbed member the kept cluster has a member that is earlier, or as early with the smaller cluster id |
| `ClusterInvariants.DatedRepresentative` | src/nlp/dedup/similarity.py:118-131 | a dated article anywhere in the story makes the representative dated and at least as early |
| `ClusterInvariants.CredibleRepresentative` | src/nlp/dedup/clustering.py:201-209 | at the representative's own instant, or among dateless articles, no article has a more credible source, and any source beats none |
| `ClusterInvariants.RedeliveryKeepsClusters` | src/nlp/dedup/clustering.py:142-223 | assigning the same seed again at once changes no article's cluster, whatever fresh id the retry brings |
| `ClusterComponents.RunKeepsWellElected` | src/nlp/dedup/clustering.py:201-221 | every graph reached by a run of assignments has its representatives, sizes and marks right |
| `ClusterComponents.StepKeepsTogether` | src/nlp/dedup/clustering.py:142-223 | articles once together stay together |
| `ClusterComponents.LaterRedelivery` | src/nlp/dedup/clustering.py:142-223 | in any run, assigning an earlier call's seed again, whatever came in between, changes no article's cluster |
| `ClusterComponents.ClustersAreComponents` | src/nlp/dedup/clustering.py:142-223 | after any run from an unclustered graph, sharing a cluster is the same as being connected through the processed calls |
| `ClusterComponents.ClustersAreMatchComponents` | src/nlp/dedup/clustering.py:142-223 | the same over the (self, match) pairs alone, when each call's own article exists |
| `ClusterProtocol.LockFreezesCluster` | src/nlp/dedup/clustering.py:18-27 | a commit neither adds to nor removes from a cluster one of whose members somebody else holds |
| `ClusterProtocol.NextKeepsInv` | src/nlp/dedup/clustering.py:148-181 | what each transaction relies on in each phase survives every step of every other transaction |
| `ClusterProtocol.CallIsFixed` | src/nlp/dedup/clustering.py:142-148 | a transaction makes one call from beginning to end and only its own steps move it |
| `ClusterBehaviours.HeldClusterIsFrozen` | src/nlp/dedup/clustering.py:18-27 | in every behaviour, membership of a cluster with a held member does not change under the holder |
| `ClusterBehaviours.TwoRoundsSuffice` | src/nlp/dedup/clustering.py:148-171 | in every behaviour the closure loop takes at most two rounds; the second finds nothing to lock |
| `ClusterBehaviours.CommitIsAtomic` | src/nlp/dedup/clustering.py:142-223 | in every behaviour each commit is the atomic assignment of the graph committed at that moment |
| `ClusterBehaviours.Serializable` | src/nlp/dedup/clustering.py:18-27 | the committed calls, in commit order, form a sequential run that ends in the committed graph |
| `ClusterBehaviours.InterleavedClustersAreComponents` | src/nlp/dedup/clustering.py:142-223 | under any interleaving, abort and retry, clusters are the components of the committed calls and are well elected |
| `ClusterBehaviours.ReachableRepresentative` | src/nlp/dedup/clustering.py:201-221 | in every reachable graph each cluster has exactly one marked article, it alone carries the member count, and by date and then by credibility no member ranks before it |
| `ClusterProgress.UncontendedCommits` | src/nlp/dedup/clustering.py:142-223 | a call begun in any state, with a fresh id and while nobody else holds an article it touches, can run without an abort to the commit of its assignment, in one round or in two |
| `ClusterProgress.BehaviourCommitsNext` | src/nlp/dedup/clustering.py:142-223 | so any behaviour can go on with such a call and have it committed next |
| `ClusterProgress.AnyHistory` | src/nlp/dedup/clustering.py:142-223 | every sequence of calls that name existing articles and bring ids of their own is the committed history of some behaviour |
| `ClusterProgress.RetryCommits` | src/nlp/dedup/clustering.py:244-248 | wherever a transaction has got to, once it is aborted and nobody else holds an article it touches, the retry can run to its commit |
| `ClusterProgress.HopelessGivesUp` | src/nlp/dedup/clustering.py:201-209 | a call that names no existing article never decides and can only give up |
| `Formulas.NoisyOr` | src/scoring/formulas.py:125-145 | the loop computes one minus the product of the clamped complements |
| `Formulas.ResidualSplit` | src/scoring/formulas.py:125-131 | the product over a map does not depend on which key is multiplied first |
| `Formulas.NoisyOrMonotone` | src/scoring/formulas.py:128-134 | raising or adding contributions in [0, 1] never lowers the noisy-OR, which stays in [0, 1] |
| `Formulas.CombinedIsNoisyOr` | src/scoring/formulas.py:125-145 | the loop over the scores in sorted cluster order gives the order-free noisy-OR of the map |
| `Evidence.EventsAreMax` | src/scoring/confidence.py:117-128 | any sequence of events from empty lists leaves the per-cluster maximum of the clamped contributions seen |
| `Evidence.EventOrderIrrelevant` | src/scoring/confidence.py:78-86 | order and redelivery do not matter, only which contributions were seen |
| `Evidence.ConfidenceNeverFalls` | src/scoring/confidence.py:117-138 | one more event never lowers the confidence, which stays in [0, 1] |
| `Evidence.DeliveredIsWritten` | src/scoring/confidence.py:106-138 | after any non-empty sequence of events the stored lists are the sorted written form of the maximum and the confidence its noisy-OR |
| `Evidence.ZipRoundTrip` | src/scoring/confidence.py:117-128 | writing a map as two parallel lists and zipping them back gives the map |
| `Evidence.EntityNode.Refine` | src/scoring/confidence.py:66-138 | a canonical node or corrupt lists are left alone; otherwise the node becomes the refined one |
| `Evidence.EntityNode.RefineFromMention` | src/scoring/confidence.py:141-168 | the story a mention counts for, or the article itself while it has none, is raised to credibility times extraction within [0, 1], nothing when either is missing, if that is more, and no other story changes; a missing mention, a canonical node and corrupt lists are left alone |
| `Evidence.EntityNode.Rescan` | src/scoring/confidence.py:281-304 | a provisional node, corrupt or not, is rewritten: its stories are exactly those its mentions count for, each at the most any of them is worth, and its confidence is their noisy-OR |
| `Evidence.ClampOfMax` | src/scoring/confidence.py:290-295 | clamping the maximum is the maximum of the clamped: the sweep's order of the two operations gives the event path's map |
| `Evidence.SweepAgreesWithEvents` | src/scoring/confidence.py:324-328 | when the events seen are the evidence in the graph the sweep writes exactly what the event path wrote |
| `Evidence.SweepOfNothing` | src/scoring/confidence.py:259-264 | with no mention left the sweep writes empty lists and confidence zero |
| `Evidence.SweepRestoresLostEvents` | src/scoring/confidence.py:310-315 | lost events leave the node at or below what the sweep restores |
| `Evidence.RetractionLowersSweep` | src/scoring/confidence.py:324-328 | retracting mentions can only lower what the sweep writes |
| `Evidence.MergeLowersSweep` | src/scoring/confidence.py:281-304 | renaming the clusters of the evidence, merges included, never raises what the sweep writes |
| `Evidence.EvidenceCountsMentions` | src/scoring/confidence.py:281-304 | the maximum of the evidence has exactly the stories of the clustered mentions and the articles of the others, each at the most a mention of it is worth |
| `Evidence.StoryCountsOnce` | src/scoring/confidence.py:66-86 | mentions of one story count once: the confidence is what the best of them is worth |
| `Evidence.UnclusteredCountApart` | src/scoring/confidence.py:141-168 | two articles without a cluster count apart: the complement of the confidence is the product of the two complements |
| `EvidenceProtocol.NoContributionLost` | src/scoring/confidence.py:20-40 | with the read after the lock, under any interleaving of refiners, sweeps, retractions and crashes, no contribution delivered and never retracted is lost and none invented |
| `EvidenceProtocol.RefinersJoin` | src/scoring/confidence.py:20-40 | with refiners alone the stored map is the join of everything delivered |
| `EvidenceProtocol.ConfidenceNeverFallsInterleaved` | src/scoring/confidence.py:117-138 | no step but a sweep's commit lowers the confidence |
| `EvidenceProtocol.RefinerGetsThrough` | src/scoring/confidence.py:20-40 | whenever the lock is free or its own, a refiner, new or crashed at any point, can go through and adds its contribution once to what is stored by then |
| `EvidenceProtocol.SweepGetsThrough` | src/scoring/confidence.py:267-304 | so can a sweep, which leaves the maximum of the evidence there is |
| `EvidenceProtocol.RetractedIsForgotten` | src/scoring/confidence.py:324-328 | after a retraction the next sweep to get through accounts for the remaining evidence alone |
| `EvidenceProtocol.ReadingBeforeLockLosesUpdate` | src/scoring/confidence.py:25-31 | with the read before the lock, any two contributions of different clusters have a behaviour that loses the first |
| `EvidenceProtocol.SweepDecidingEarlyClobbers` | src/scoring/confidence.py:235-239 | a sweep that decides before it locks can erase a refinement committed in between |
| `AssertionEdges.UpsertsDerive` | src/common/graph/assertion_edges.py:48-233 | any interleaving of the two upserts on one edge: best credibility, noisy-OR of each cluster's first contribution, confidence the larger, provenance exactly what was claimed |
| `AssertionEdges.IncrementalFold` | src/common/graph/assertion_edges.py:180-182 | the incremental update is the noisy-OR with one more entry |
| `AssertionEdges.ObservedAndConfirmed` | src/common/graph/assertion_edges.py:205-220 | after any history the edge was first observed by its first upsert and last confirmed by its last, of whichever kind and whether or not it brought anything new |
| `AssertionEdges.OriginSaysWho` | src/common/graph/assertion_edges.py:190-210 | after any history the origin list says "authoritative" exactly when a feed asserted the edge and "inferred" exactly when a story did |
| `AssertionEdges.UpsertOrderIrrelevant` | src/common/graph/assertion_edges.py:162-233 | all orders and redeliveries of the same claims leave the same assertion if and only if no cluster contradicts itself or some cluster brings nothing but ones |
| `AssertionEdges.FirstDeliveryPins` | src/common/graph/assertion_edges.py:169-182 | whatever history follows, the noisy-OR holds a cluster's first contribution |
| `AssertionEdges.ConfidenceInUnit` | src/common/graph/assertion_edges.py:190-199 | inputs in [0, 1] keep the confidence in [0, 1] |
| `AssertionEdges.UpsertNeverLowers` | src/common/graph/assertion_edges.py:59-75 | no upsert lowers the confidence |
| `AssertionArticles.NeverUndercounts` | src/common/graph/assertion_edges.py:183-205 | the supporting count is at least the number of distinct articles counted, past the cap too |
| `AssertionArticles.CountIsExact` | src/common/graph/assertion_edges.py:183-205 | the count is the number of distinct counted articles if and only if every folded-in delivery adds only new ones: none twice and none counted earlier that is no longer stored, whatever the cap |
| `AssertionArticles.PipelineCountIsExact` | src/common/graph/assertion_edges.py:201-205 | for lists of distinct articles it goes wrong exactly when a folded-in delivery brings back a counted article that has fallen off the stored list |
| `AssertionArticles.ListAndCountAreExact` | src/common/graph/assertion_edges.py:183-205 | the stored list and the count are exact together if and only if all articles fit under the cap and no folded-in delivery repeats a new one |
| `AssertionArticles.ExactBelowCap` | src/nlp/dedup/handler.py:72-82 | for lists of distinct articles, the only ones the pipeline sends, the count is exact below the cap; list and count are exact together precisely there |
| `AssertionArticles.RepeatOvercounts` | src/common/graph/assertion_edges.py:183-188 | a list naming a new article twice is counted twice |
| `AssertionArticles.StoredGrowsAtEnd` | src/common/graph/assertion_edges.py:183-187 | the stored list only grows at its end, up to the cap: the articles kept are the first ones |
| `AssertionArticles.NotInKeepsOrder` | src/common/graph/assertion_edges.py:184 | what is added is the given list in its order, without what is stored |
| `AssertionStore.EdgeStore.MergeRelationship` | src/common/graph/writer.py:29-69 | missing endpoints change nothing; a new edge gets the one property map, on an existing one the other is set and the properties it does not name are kept; the outcome says which |
| `AssertionStore.EdgeStore.UpsertAuthoritative` | src/common/graph/assertion_edges.py:48-81 | the edge becomes the one with this feed folded in, or nothing changes when an endpoint is missing |
| `AssertionStore.EdgeStore.UpsertInferred` | src/common/graph/assertion_edges.py:162-233 | the edge becomes the one with this cluster folded in, and the outcome tells new edge, new evidence and re-emission apart; an edge that lists the cluster without an inferred confidence, on which the code raises, is left alone |
| `AssertionStore.NeverBroken` | src/common/graph/assertion_edges.py:170-178 | no history of upserts leaves an edge that lists a cluster and has no inferred confidence |
| `AssertionStore.EdgeStore.UpsertAuthoritativeBulk` | src/common/graph/assertion_edges.py:84-159 | three clause-by-clause passes over the rows, duplicates included, leave each matched pair with one application, and both counters are right |
| `AssertionStore.ProcessedCountsRows` | src/common/graph/assertion_edges.py:141-142 | the rows processed are those with both endpoints, repeats counted: no fewer than the edges written, and as many when none repeats |
| `AssertionStore.WithFeedIdempotent` | src/common/graph/assertion_edges.py:48-81 | repeating the single upsert with the same inputs changes nothing |
| `AssertionStore.RowAgrees` | src/common/graph/assertion_edges.py:134-147 | bulk and single agree on one edge exactly when the floor of zero is not needed |
| `AssertionStore.BulkIsFoldOfSingles` | src/common/graph/assertion_edges.py:84-159 | for rows with endpoints the bulk result is the fold of singles exactly when no row's edge needs the floor of zero |
| `AssertionStore.ZeroCredibilityDiffers` | src/common/graph/assertion_edges.py:63-75 | a feed of credibility zero on a new edge is where the two differ |
| `Versions.CompareAntisymmetric` | src/assets/matching.py:13-26 | swapping the versions negates the comparison, on all strings |
| `Versions.OrderlyPreorder` | src/assets/matching.py:20-26 | on versions whose components are each a number or on one side of all numbers, the comparison is a total preorder |
| `Versions.NumericIsOrderly` | src/assets/matching.py:13-17 | versions of digits only are among them |
| `Versions.OrderBreaksExactly` | src/assets/matching.py:13-26 | for any version: some numeric versions a <= b < it < a exist if and only if its first component that is not a number is not on one side of all numbers |
| `Versions.MissingComponentIsZero` | src/assets/matching.py:21-22 | a missing trailing component compares as zero |
| `Versions.NumbersDecide` | src/assets/matching.py:13-26 | written numbers compare as numbers, and the first pair of components that differs decides |
| `Versions.LeadingZero` | src/assets/matching.py:14-16 | leading zeros do not matter |
| `Versions.SatisfyingSetIsConvex` | src/assets/matching.py:29-50 | between two satisfying orderly versions every orderly version satisfies the match |
| `Versions.EqualVersionsSatisfyAlike` | src/assets/matching.py:29-50 | equal orderly versions satisfy the same matches |
| `Versions.BoundAdmitsItself` | src/assets/matching.py:38-50 | a bound, from either side, admits the version equal to it if and only if it is an including one |
| `Versions.PinAdmitsExactly` | src/assets/matching.py:34-36 | a pinned record admits exactly the versions that compare equal to the pin, whatever range stands beside it |
| `Versions.RangeIsConjunction` | src/assets/matching.py:29-50 | a record without a pin admits a version if and only if it is vulnerable and each bound it gives does so alone; an empty text is no bound |
| `Versions.MixedComponentsCycle` | src/assets/matching.py:13-17 | with a mixed component the comparison is cyclic: 2 < 10 < 1a < 2 |
| `Versions.HolesExactly` | src/assets/matching.py:38-50 | a range of one bound, from either side, included or not, admits a numeric version and refuses one further inside if and only if the first component of the bound that is not a number is not on one side of all numbers |
| `Versions.MixedRangeHasHole` | src/assets/matching.py:38-50 | so a lower bound can admit a version and refuse a larger one |
| `AssetSweep.AssetGraph.WantedRows` | src/assets/sweep_handler.py:99-125 | the rows are exactly the justified pairs of the page, each once, each naming a record that justifies it |
| `AssetSweep.AssetGraph.Reconcile` | src/assets/sweep_handler.py:141-170 | after a page its assets have exactly their justified edges and other assets' edges are untouched; both counts are right |
| `AssetSweep.AssetGraph.SweepPage` | src/assets/sweep_handler.py:128-179 | one invocation reconciles its page and reports a cursor only after a full page |
| `AssetSweep.AssetGraph.Sweep` | src/assets/sweep_handler.py:128-179 | from the empty cursor until done, any sizes: it ends, in a known number of calls, with exactly the justified edges, each naming a justifying record, having retracted exactly the others |
| `AssetSweep.AssetGraph.SweepTwice` | src/assets/sweep_handler.py:7-12 | a second sweep keeps the set of edges and retracts none |
| `AssetSweep.AssetGraph.MatchAsset` | src/assets/matcher.py:105-117 | the event path adds or re-points every justified edge of one asset, each to a record that justifies it, leaves every other edge as it was, and returns the justifying records |
| `AssetSweep.AssetGraph.WriteAffectsBulk` | src/assets/matcher.py:50-77 | exactly the pairs of the rows with both endpoints are added or re-pointed, every other edge is kept, and the count is of those rows |
| `AssetSweep.AssetGraph.DeleteAffectsBulk` | src/assets/matcher.py:80-102 | exactly the given edges are removed; rows without an edge count for nothing, repeated rows each time |
| `AssetSweep.HitsCountEdges` | src/assets/matcher.py:80-102 | deletions add up over lists, and over rows without repeats are the number of edges named |
| `AssetSweep.PresentHaveEnds` | src/assets/matcher.py:50-77 | the rows that count are those whose CVE and asset both exist |
| `AssetSweep.JustifiedByRecord` | src/assets/sweep_handler.py:107-125 | with vendors and products stored in lower case, an edge is justified exactly when its CVE matches a record of the asset's vendor and product, however the asset spells them in capitals, that admits its version |
| `AssetSweep.CursorAdvances` | src/assets/sweep_handler.py:45-52 | a reported cursor is a cursor for exactly the assets not yet visited |
| `AssetSweep.FoldingForgetsCase` | src/assets/sweep_handler.py:112 | two vendor or product spellings are matched as equal if and only if they differ in the case of letters only |
| `Ordering.LtIsLexicographic` | src/assets/sweep_handler.py:45-52 | ids are ordered as in a dictionary: by the first character that differs, a proper prefix first |
| `Paging.PageSplits` | src/interop/withdrawal.py:23-29 | a page takes the smallest ids left and its last id is a cursor for exactly the rest |
| `AssetSweep.OneCallIsNotTheSweep` | src/assets/sweep_handler.py:172-176 | one call leaves exactly the justified edges, whatever edges between existing CVEs and assets there were, if and only if all assets fit in one page or there is no CVE |
| `Withdrawal.ExportGraph.RevokeBatch` | src/interop/withdrawal.py:49-64 | only gated-out nodes of the captured page are revoked, and the count is theirs |
| `Withdrawal.ExportGraph.Run` | src/interop/withdrawal.py:23-64 | with a floor and clock read anew by each call, every exported node ends revoked by a call that gates it out or untouched past one that lets it pass, and nothing else changes, even when responses are lost and calls retried; with none lost it visits each exported node once, in order, in one call a page plus one |
| `Withdrawal.PageRevokes` | src/interop/withdrawal.py:31-46 | one page keeps the run's invariant, whether its cursor is taken over or the call is retried |
| `Withdrawal.PageShrinksScan` | src/interop/withdrawal.py:31-46 | and leaves strictly fewer nodes to scan |
| `Withdrawal.SteadyAdvances` | src/interop/withdrawal.py:31-38 | revoking inside a page does not change what the scan will see beyond it |
| `Withdrawal.FloorsDecide` | src/interop/withdrawal.py:39-46 | with the floors between two values, what is gated out at the lower ends revoked, so no exported node is left gated out at it, and what passes at the higher is untouched |
| `Withdrawal.ServedAfterwards` | src/interop/withdrawal.py:39-46 | with one floor, what is still served is exactly what was served, is no prune candidate and is not below the floor, no confidence counting as zero; the rest is marked revoked, stamped and no longer exported, and is otherwise as it was |
| `PruneSweep.SweepGraph.Handle` | src/scoring/sweep_handler.py:98-116 | one call flags one page of the scan its cursor belongs to and reports the encoded next cursor |
| `PruneSweep.SweepGraph.Run` | infra/stacks/scoring_stack.py:215-279 | with a clock and knobs read anew by each call, the loop on done flags every provisional node and inferred edge to the predicate's value at one of its calls and takes node pages + 1 + edge pages + 1 calls |
| `PruneSweep.RunAdvances` | src/scoring/sweep_handler.py:98-116 | each call takes one page off the scan it is in, and the node scan hands over exactly once |
| `PruneSweep.FlagsFollowClock` | src/scoring/confidence.py:363-394 | with fixed knobs, a node stale when the run starts ends flagged and one not yet stale when it ends does not |
| `PruneSweep.FlagsSayWhy` | src/scoring/confidence.py:363-388 | with knobs and clock fixed, a provisional node ends flagged, with the reason, exactly when it is below its floor and was first seen more than the stale days ago, an inferred edge exactly when it is below its floor and no feed asserts it; nothing else changes |
| `PruneSweep.RetryReplaces` | src/scoring/sweep_handler.py:3-5 | a retried call, at whatever time, reports the same and leaves what it alone would have left |
| `PruneSweep.RetryIsNoOp` | src/scoring/sweep_handler.py:3-5 | it changes nothing if and only if nothing on its page has crossed its predicate since |
| `PruneSweep.NodesFlaggedExactly` | src/scoring/sweep_handler.py:98-116 | with calls enough, every provisional node is flagged if and only if no page but the last ends with an id that starts with the prefix |
| `PruneSweep.PrefixedIdHidesNodes` | src/scoring/sweep_handler.py:45-47 | when a page of nodes ends with an id that starts with the prefix, no node beyond that page is ever touched |
| `PruneSweep.PrefixedIdLeavesStaleNode` | src/scoring/sweep_handler.py:45-47 | a graph of two nodes where the second is never flagged, however stale |
| `NvdFreshness.ResyncEdges` | src/common/graph/structural_edges.py:4-32 | the edges become exactly the wanted ones; created and deleted are the two differences |
| `NvdFreshness.CveStore.ApplyCve` | src/collection/rest/nvd.py:226-328 | absent, stale and resynced outcomes, scalar properties always merged, whether the score changed, and which match edges are new |
| `NvdFreshness.GuardHolds` | src/collection/rest/nvd.py:18-30 | in any order no stamp is newer than the stored one and the CWE set is that of a payload with it, once one timestamp is known |
| `NvdFreshness.StaleNeverResurrects` | src/collection/rest/nvd.py:18-30 | once a stamp is stored, no sequence of payloads none of which is newer changes the stamp or a CWE edge |
| `NvdFreshness.NewerSettles` | src/collection/rest/nvd.py:294-325 | a newer payload sets stamp, CWEs and MATCHES together, and when it has any MATCHES no later payload that is not newer changes one of them |
| `NvdFreshness.StaleBackfillsMatches` | src/collection/rest/nvd.py:295-325 | payloads none of which is newer fill in missing MATCHES, the first that has any, and never change those that are there |
| `NvdFreshness.LastValueWins` | src/collection/rest/nvd.py:285-293 | a property ends with the value of the last payload that names it, stale or not |
| `NvdFreshness.ParsedIsRanked` | src/collection/rest/nvd.py:220-222 | stamps that all parse are ranked by the comparison |
| `NvdFreshness.OneFormatIsRanked` | src/collection/rest/nvd.py:220-223 | so are stamps of one format, parsed or not: text order agreeing with instant order |
| `NvdConvergence.OrdersConverge` | src/collection/rest/nvd.py:212-223 | whatever the stamps, all orders and redeliveries end with the same CWE set if and only if the payloads that can be the last to set it carry the same one: those that every payload that could be stored is overtaken by, directly or through others, or is tied with one that is |
| `NvdConvergence.EndsDecided` | src/collection/rest/nvd.py:288-328 | every order ends with the CWE set of such a payload, or the original one when there is none |
| `NvdConvergence.DecidesInSomeOrder` | src/collection/rest/nvd.py:288-328 | and each such payload is the last in some order |
| `NvdConvergence.RankedOrdersConverge` | src/collection/rest/nvd.py:212-223 | on ranked stamps those are the payloads with the newest stamp, when newer than the stored one; or all payloads, when there is no stamp |
| `NvdFreshness.StampsConverge` | src/collection/rest/nvd.py:212-223 | they end with equally new stamps in any case |
| `NvdFreshness.InstantsConverge` | src/collection/rest/nvd.py:212-223 | with parsed stamps, with the same instant, the latest of all that are stored or arrive |
| `NvdFreshness.NoTimestampsOrderMatters` | src/collection/rest/nvd.py:216-219 | without any timestamp the last payload wins |
| `NvdFreshness.UnparseableStampCycles` | src/collection/rest/nvd.py:220-223 | one unparseable stamp can make the comparison cyclic |
| `NvdFreshness.UnparseableStampOrderMatters` | src/collection/rest/nvd.py:220-223 | and then two orders of the same three payloads end with different CWE sets |
| `RateLimiter.AppendKeepsSpaced` | src/collection/rest/nvd_backfill.py:86-95 | appending after looking only at the pruned list keeps the whole history spaced |
| `RateLimiter.PruneKeepsTail` | src/collection/rest/nvd_backfill.py:88-94 | pruning keeps a suffix of the history and drops only entries a window old |
| `RateLimiter.AtMostLimitInAnyWindow` | src/collection/rest/nvd_backfill.py:54-60 | no window, wherever it starts, holds more than the limit |
| `RateLimiter.Limiter.Acquire` | src/collection/rest/nvd_backfill.py:86-95 | one acquisition is recorded at the time of return; it sleeps only when the window is full and for no more than a window |
| `RoundRobin.SortIsStable` | src/delivery/queries.py:231-232 | the sort is a permutation, newest first, and keeps the order of equally recent stories |
| `RoundRobin.CountBySource` | src/delivery/queries.py:229-230 | fewer of each source means fewer in all |
| `RoundRobin.RoundIsFair` | src/delivery/queries.py:222-249 | at any point of the selection sources have newest-first prefixes within one of each other, and exhausted queues mean everything was taken |
| `RoundRobin.SelectFairly` | src/delivery/queries.py:222-249 | it ends with the smaller of limit and total, a prefix of each source with nothing left out that is newer than something taken, no source more than one ahead of one with stories left, and in a round cut short the sources first by id served first |
| `RoundRobin.FetchRecentStories` | src/delivery/queries.py:270-277 | the feed is such a selection re-sorted by date, newest on top and dateless last |
| `Poller.SourcePoller.Poll` | src/collection/rss/poller.py:134-167 | the loop's final table, events and count |
| `Poller.RepollQuiet` | src/collection/rss/poller.py:142-146 | polling an unchanged feed again publishes nothing exactly when no guid in it carries two contents |
| `Poller.ChangeIsUpdate` | src/collection/rss/poller.py:142-160 | an entry is published once as a discovery when first seen, once more as an update when one of title, summary and link changes, and not when nothing does |
| `Poller.GuidFallsBack` | src/collection/rss/poller.py:64-65 | an entry goes by its id, without one by its guid, and without either by its link |
| `Poller.MovedTextIsUnseen` | src/collection/rss/poller.py:54-56 | text moved across a field boundary is not seen as a change |
| `Poller.NothingSeenIsUnheard` | src/collection/rss/poller.py:26-29 | with crashes between any two steps: a stored fingerprint was published, a completed poll published each entry of its feed, an update follows a discovery |
| `Poller.StoringFirstSilences` | src/collection/rss/poller.py:159-161 | stored before it is published, an entry is never published by any number of later polls |
| `Poller.UncrashedRunIsPoll` | src/collection/rss/poller.py:134-164 | the machine's uncrashed steps end where the loop ends |
| `Poller.CrashedPollRecovers` | src/collection/rss/poller.py:26-29 | wherever a poll has got to, it can crash, be started again and run to its end, where the loop from the state stored by then ends |
| `Poller.BehaviourRecovers` | src/collection/rss/poller.py:26-29 | so any behaviour can go on with a crash and a completed poll of any feed |

## Left out

- Similarity scoring, SimHash and candidate generation: matches are inputs of an assignment.
- Articles created, re-dated or given another source while transactions run: the node set, dates and credibilities are held fixed.
- Progress of the locking protocol under contention: locks are granted in any order, which covers the deterministic order of the code; that of several transactions that want the same articles some one finishes is not claimed.
- Clustering.ArticleGraph.AssignCluster: the fresh uuid is an argument; that it is unused is a hypothesis of the lemmas about runs.
- Float rounding: noisy-OR over many contributions below one reaches exactly 1.0 in doubles; over the reals only a contribution of one brings it there.
- Half-life decay, novelty and severity: real exponents and finite tables.
- Evidence.EntityNode.Rescan: one node; the page loop around it is the pagination proved in `Paging`.
- EvidenceProtocol.NoContributionLost: a contribution retracted and mentioned again counts as retracted; what a sweep writes after a retraction is `Evidence.RetractionLowersSweep`.
- AssertionEdges.UpsertsDerive: one edge at a time; the endpoint lock makes each upsert one step, and the lock protocol itself is the one proved in `EvidenceProtocol`.
- Identifier and edge-direction checks that only raise.
- Versions.OrderlyPreorder: ASCII digits; Python's `isdigit` also accepts other digits, some of which `int` refuses.
- AssetSweep.AssetGraph.Sweep: assets, CVEs and CPE records do not change during a sweep, asset versions are present, lower-casing is ASCII, and the `matched_at` time is not kept.
- PruneSweep.SweepGraph.Run: element ids are not empty and no provisional node's id starts with `edges:`, which is more than its node scan needs (`PruneSweep.NodesFlaggedExactly`); Neo4j element ids, a number, a database uuid and a number joined by colons, never do. Nodes and edges change only by being flagged while it runs.
- Withdrawal.ExportGraph.Run: nodes change only by being revoked while it runs.
- Phases of the daily sweep other than pruning and withdrawal, and their chaining.
- NvdConvergence.OrdersConverge: a stamp's instant is what its text parses to, so equal texts have equal instants. MATCHES edges are re-synced when missing as well and need not converge.
- NvdFreshness.CveStore.ApplyCve: CPEMatch properties and the announcements after commit are not kept.
- The backfill loop, its retries and its work list.
- RoundRobin.FetchRecentStories: the query's row limit and the entity display fields; its argument is the rows returned.
- Poller.SourcePoller.Poll: a feed that was fetched; fetch retries, health alerts and the thread pool over sources are not modelled.
- STIX and TAXII objects, HTTP handlers, the frontend, and the infrastructure stacks apart from the sweep loop.
