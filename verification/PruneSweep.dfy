/** The prune phase: one loop over one string cursor scans all provisional nodes, hands over
    once, then scans all inferred edges. */
module PruneSweep {
  import opened Options
  import opened Ordering
  import opened Chronology
  import opened Paging

  /** `firstSeen` is absent for a null and for anything that is not a zoned datetime. */
  datatype Node = Node(
    provisional: bool,
    confidence: Option<real>,
    firstSeen: Option<Instant>,
    pruneCandidate: Option<bool>,
    pruneReason: Option<string>)

  datatype Edge = Edge(
    inferred: Option<real>,
    confidence: Option<real>,
    origin: set<string>,
    pruneCandidate: Option<bool>)

  datatype Graph = Graph(nodes: map<Id, Node>, edges: map<Id, Edge>)

  datatype Knobs = Knobs(nodeFloor: real, staleDays: real, edgeFloor: real, now: Instant)

  const EDGE_PHASE_PREFIX: string := "edges:"
  const STALE_REASON: string := "stale_low_confidence_provisional"

  // ---- The flags ----

  predicate StaleNode(n: Node, k: Knobs) {
    && n.confidence.GetOr(0.0) < k.nodeFloor
    && n.firstSeen.Some?
    && (k.now - n.firstSeen.value) as real / 86400.0 > k.staleDays
  }

  predicate PrunableEdge(e: Edge, k: Knobs) {
    e.confidence.GetOr(0.0) < k.edgeFloor && "authoritative" !in e.origin
  }

  /** Both flags are set to the predicate's value, on and off alike. */
  function FlagNode(n: Node, k: Knobs): Node {
    n.(pruneCandidate := Some(StaleNode(n, k)),
       pruneReason := if StaleNode(n, k) then Some(STALE_REASON) else None)
  }

  function FlagEdge(e: Edge, k: Knobs): Edge {
    e.(pruneCandidate := Some(PrunableEdge(e, k)))
  }

  function FlagNodes(nodes: map<Id, Node>, ids: set<Id>, k: Knobs): map<Id, Node> {
    map i | i in nodes :: if i in ids then FlagNode(nodes[i], k) else nodes[i]
  }

  function FlagEdges(edges: map<Id, Edge>, ids: set<Id>, k: Knobs): map<Id, Edge> {
    map i | i in edges :: if i in ids then FlagEdge(edges[i], k) else edges[i]
  }

  function Provisional(nodes: map<Id, Node>): set<Id> {
    set i | i in nodes && nodes[i].provisional
  }

  function Inferred(edges: map<Id, Edge>): set<Id> {
    set i | i in edges && edges[i].inferred.Some?
  }

  // ---- The handler ----

  predicate OnEdges(cursor: string) {
    EDGE_PHASE_PREFIX <= cursor
  }

  /** An empty string is no cursor, with or without the prefix. */
  function RawCursor(cursor: string): Option<Id> {
    var raw := if OnEdges(cursor) then cursor[|EDGE_PHASE_PREFIX|..] else cursor;
    if raw == "" then None else Some(raw)
  }

  datatype Report = Report(cursor: string, done: bool, count: nat)

  function PageAt(g: Graph, cursor: string, batch: nat): seq<Id> {
    Page(if OnEdges(cursor) then Inferred(g.edges) else Provisional(g.nodes), RawCursor(cursor), batch)
  }

  function Flagged(g: Graph, cursor: string, batch: nat, k: Knobs): Graph {
    var ids := Elements(PageAt(g, cursor, batch));
    if OnEdges(cursor) then g.(edges := FlagEdges(g.edges, ids, k)) else g.(nodes := FlagNodes(g.nodes, ids, k))
  }

  /** The node scan's end hands over; the edge scan's end is the end. */
  function Reported(g: Graph, cursor: string, batch: nat): Report {
    var page := PageAt(g, cursor, batch);
    if OnEdges(cursor) then
      if page == [] then Report("", true, 0) else Report(EDGE_PHASE_PREFIX + page[|page| - 1], false, |page|)
    else
      Report(if page == [] then EDGE_PHASE_PREFIX else page[|page| - 1], false, |page|)
  }

  class SweepGraph {
    var nodes: map<Id, Node>
    var edges: map<Id, Edge>

    constructor (g: Graph)
      ensures Snapshot() == g
    {
      nodes, edges := g.nodes, g.edges;
    }

    function Snapshot(): Graph
      reads this
    {
      Graph(nodes, edges)
    }

    /** One invocation with phase "prune_flags". */
    method Handle(cursor: string, batch: nat, k: Knobs) returns (r: Report)
      modifies this
      ensures Snapshot() == Flagged(old(Snapshot()), cursor, batch, k)
      ensures r == Reported(old(Snapshot()), cursor, batch)
    {
      var page := PageAt(Snapshot(), cursor, batch);
      var ids := Elements(page);
      var next: Option<string> := LastOf(page);
      if OnEdges(cursor) {
        edges := FlagEdges(edges, ids, k);
        next := if next.None? then None else Some(EDGE_PHASE_PREFIX + next.value);
      } else {
        nodes := FlagNodes(nodes, ids, k);
        next := if next.None? then Some(EDGE_PHASE_PREFIX) else next;
      }
      r := Report(next.GetOr(""), next.None?, |page|);
    }

    /** The Step Function's loop on `done`, from the empty cursor. The k-th call reads its own
        clock and knobs, `ks(k)`. Every provisional node and every inferred edge is flagged,
        nothing else changes, and the number of calls is the node pages plus one and the edge
        pages plus one. */
    method Run(batch: nat, ks: nat -> Knobs) returns (calls: nat, count: nat)
      requires batch >= 1 && PlainIds(Snapshot())
      modifies this
      ensures NodesFlagged(old(nodes), nodes, Provisional(old(nodes)), ks, calls)
      ensures EdgesFlagged(old(edges), edges, Inferred(old(edges)), ks, calls)
      ensures calls == (Pages(|Provisional(old(nodes))|, batch) + 1) + (Pages(|Inferred(old(edges))|, batch) + 1)
      ensures count == |Provisional(old(nodes))| + |Inferred(old(edges))|
    {
      ghost var before := Snapshot();
      var cursor, done := "", false;
      calls, count := 0, 0;
      RunStarts(before, batch, ks);
      while !done
        invariant Running(before, Snapshot(), cursor, done, batch, ks, calls, count)
        decreases CallsLeft(before, cursor, done, batch)
      {
        ghost var was := Snapshot();
        var r := Handle(cursor, batch, ks(calls));
        RunAdvances(before, was, cursor, batch, ks, calls, count);
        cursor, done, calls, count := r.cursor, r.done, calls + 1, count + r.count;
      }
      RunEnds(before, Snapshot(), ks, calls);
    }
  }

  /** The nodes `ids` carry the flags one of the first `calls` calls gave them; every other
      node is as it was. */
  ghost predicate NodesFlagged(was: map<Id, Node>, now: map<Id, Node>, ids: set<Id>, ks: nat -> Knobs, calls: nat) {
    && now.Keys == was.Keys
    && (forall i :: i in was && i !in ids ==> now[i] == was[i])
    && (forall i :: i in was && i in ids ==> exists k: nat :: k < calls && now[i] == FlagNode(was[i], ks(k)))
  }

  ghost predicate EdgesFlagged(was: map<Id, Edge>, now: map<Id, Edge>, ids: set<Id>, ks: nat -> Knobs, calls: nat) {
    && now.Keys == was.Keys
    && (forall i :: i in was && i !in ids ==> now[i] == was[i])
    && (forall i :: i in was && i in ids ==> exists k: nat :: k < calls && now[i] == FlagEdge(was[i], ks(k)))
  }

  /** Element ids are not empty, and none of a provisional node starts with the hand-over
      prefix. */
  predicate PlainIds(g: Graph) {
    "" !in g.nodes && "" !in g.edges && forall i :: i in Provisional(g.nodes) ==> !OnEdges(i)
  }

  function Left(g: Graph, cursor: string): set<Id> {
    Beyond(if OnEdges(cursor) then Inferred(g.edges) else Provisional(g.nodes), RawCursor(cursor))
  }

  /** The provisional nodes a run still has to flag. */
  function PendingNodes(g: Graph, cursor: string, done: bool): set<Id> {
    if done || OnEdges(cursor) then {} else Left(g, cursor)
  }

  function PendingEdges(g: Graph, cursor: string, done: bool): set<Id> {
    if done then {} else if OnEdges(cursor) then Left(g, cursor) else Inferred(g.edges)
  }

  /** The calls a run still has to make: each scan ends with a call that finds nothing. */
  function CallsLeft(g: Graph, cursor: string, done: bool, batch: nat): nat
    requires batch >= 1
  {
    if done then 0
    else if OnEdges(cursor) then Pages(|Left(g, cursor)|, batch) + 1
    else (Pages(|Left(g, cursor)|, batch) + 1) + (Pages(|Inferred(g.edges)|, batch) + 1)
  }

  /** Everything but the pending nodes and edges has been flagged. */
  ghost predicate FlaggedBut(before: Graph, g: Graph, nodes: set<Id>, edges: set<Id>, ks: nat -> Knobs, calls: nat) {
    && NodesFlagged(before.nodes, g.nodes, Provisional(before.nodes) - nodes, ks, calls)
    && EdgesFlagged(before.edges, g.edges, Inferred(before.edges) - edges, ks, calls)
  }

  ghost predicate Running(before: Graph, g: Graph, cursor: string, done: bool, batch: nat, ks: nat -> Knobs,
                          calls: nat, count: nat)
    requires batch >= 1
  {
    var nodes, edges := PendingNodes(before, cursor, done), PendingEdges(before, cursor, done);
    && FlaggedBut(before, g, nodes, edges, ks, calls)
    && calls + CallsLeft(before, cursor, done, batch) == CallsLeft(before, "", false, batch)
    && count + |nodes| + |edges| == |Provisional(before.nodes)| + |Inferred(before.edges)|
  }

  /** Flags are not part of either scan predicate. */
  lemma ScansKept(before: Graph, was: Graph, nodes: set<Id>, edges: set<Id>, ks: nat -> Knobs, calls: nat)
    requires FlaggedBut(before, was, nodes, edges, ks, calls)
    ensures Provisional(was.nodes) == Provisional(before.nodes) && Inferred(was.edges) == Inferred(before.edges)
  {
  }

  lemma FlagMoreNodes(was: map<Id, Node>, now: map<Id, Node>, ids: set<Id>, more: set<Id>, ks: nat -> Knobs, calls: nat)
    requires NodesFlagged(was, now, ids, ks, calls) && ids !! more
    ensures NodesFlagged(was, now, ids, ks, calls + 1)
    ensures NodesFlagged(was, FlagNodes(now, more, ks(calls)), ids + more, ks, calls + 1)
  {
  }

  lemma FlagMoreEdges(was: map<Id, Edge>, now: map<Id, Edge>, ids: set<Id>, more: set<Id>, ks: nat -> Knobs, calls: nat)
    requires EdgesFlagged(was, now, ids, ks, calls) && ids !! more
    ensures EdgesFlagged(was, now, ids, ks, calls + 1)
    ensures EdgesFlagged(was, FlagEdges(now, more, ks(calls)), ids + more, ks, calls + 1)
  {
  }

  /** One page of the node scan, with the edges as they were. */
  lemma NodePageFlagged(before: Graph, was: Graph, nodes: set<Id>, edges: set<Id>, page: set<Id>,
                        ks: nat -> Knobs, calls: nat)
    requires FlaggedBut(before, was, nodes, edges, ks, calls) && page <= nodes <= Provisional(before.nodes)
    ensures FlaggedBut(before, was.(nodes := FlagNodes(was.nodes, page, ks(calls))), nodes - page, edges, ks, calls + 1)
  {
    FlagMoreNodes(before.nodes, was.nodes, Provisional(before.nodes) - nodes, page, ks, calls);
    FlagMoreEdges(before.edges, was.edges, Inferred(before.edges) - edges, {}, ks, calls);
    RestOfScan(Provisional(before.nodes), nodes, page);
  }

  lemma EdgePageFlagged(before: Graph, was: Graph, nodes: set<Id>, edges: set<Id>, page: set<Id>,
                        ks: nat -> Knobs, calls: nat)
    requires FlaggedBut(before, was, nodes, edges, ks, calls) && page <= edges <= Inferred(before.edges)
    ensures FlaggedBut(before, was.(edges := FlagEdges(was.edges, page, ks(calls))), nodes, edges - page, ks, calls + 1)
  {
    FlagMoreNodes(before.nodes, was.nodes, Provisional(before.nodes) - nodes, {}, ks, calls);
    FlagMoreEdges(before.edges, was.edges, Inferred(before.edges) - edges, page, ks, calls);
    RestOfScan(Inferred(before.edges), edges, page);
  }

  lemma RestOfScan(ids: set<Id>, left: set<Id>, page: set<Id>)
    requires page <= left && left <= ids
    ensures (ids - left) + page == ids - (left - page)
  {
  }

  lemma RunStarts(g: Graph, batch: nat, ks: nat -> Knobs)
    requires batch >= 1
    ensures Running(g, g, "", false, batch, ks, 0, 0)
    ensures CallsLeft(g, "", false, batch)
      == (Pages(|Provisional(g.nodes)|, batch) + 1) + (Pages(|Inferred(g.edges)|, batch) + 1)
  {
    var ps, qs := Provisional(g.nodes), Inferred(g.edges);
    assert Left(g, "") == ps && ps - ps == {} && qs - qs == {};
  }

  lemma RunEnds(before: Graph, g: Graph, ks: nat -> Knobs, calls: nat)
    requires FlaggedBut(before, g, {}, {}, ks, calls)
    ensures NodesFlagged(before.nodes, g.nodes, Provisional(before.nodes), ks, calls)
    ensures EdgesFlagged(before.edges, g.edges, Inferred(before.edges), ks, calls)
  {
    var ps, qs := Provisional(before.nodes), Inferred(before.edges);
    assert ps - {} == ps && qs - {} == qs;
  }

  // ---- Pages and calls ----

  /** What the reported cursor leaves pending: what was, less the page. One call is made, and
      the page is counted. */
  ghost predicate PendingAdvanced(g: Graph, cursor: string, batch: nat)
    requires batch >= 1
  {
    var page, r := PageAt(g, cursor, batch), Reported(g, cursor, batch);
    var nodes, edges := PendingNodes(g, cursor, false), PendingEdges(g, cursor, false);
    var nodes', edges' := PendingNodes(g, r.cursor, r.done), PendingEdges(g, r.cursor, r.done);
    && (if OnEdges(cursor) then Elements(page) <= edges && edges' == edges - Elements(page) && nodes' == nodes
        else Elements(page) <= nodes && nodes' == nodes - Elements(page) && edges' == edges)
    && r.count + |nodes'| + |edges'| == |nodes| + |edges|
    && 1 + CallsLeft(g, r.cursor, r.done, batch) == CallsLeft(g, cursor, false, batch)
  }

  lemma PendingAdvances(g: Graph, cursor: string, batch: nat)
    requires batch >= 1 && PlainIds(g)
    ensures PendingAdvanced(g, cursor, batch)
  {
    if OnEdges(cursor) {
      PendingEdgesAdvance(g, cursor, batch);
    } else {
      PendingNodesAdvance(g, cursor, batch);
    }
  }

  lemma PendingEdgesAdvance(g: Graph, cursor: string, batch: nat)
    requires batch >= 1 && PlainIds(g) && OnEdges(cursor)
    ensures PendingAdvanced(g, cursor, batch)
  {
    var qs, page := Inferred(g.edges), PageAt(g, cursor, batch);
    if page == [] {
      ScanEnds(qs, RawCursor(cursor), batch);
    } else {
      ScanAdvances(qs, RawCursor(cursor), batch);
      EdgeCursorRoundTrip(g, page[|page| - 1]);
    }
  }

  lemma PendingNodesAdvance(g: Graph, cursor: string, batch: nat)
    requires batch >= 1 && PlainIds(g) && !OnEdges(cursor)
    ensures PendingAdvanced(g, cursor, batch)
  {
    var ps, page := Provisional(g.nodes), PageAt(g, cursor, batch);
    if page == [] {
      ScanEnds(ps, RawCursor(cursor), batch);
      HandOver(g);
    } else {
      ScanAdvances(ps, RawCursor(cursor), batch);
      NodeCursorRoundTrip(g, page[|page| - 1]);
    }
  }

  lemma FlagsAdvance(before: Graph, was: Graph, cursor: string, batch: nat, ks: nat -> Knobs, calls: nat,
                     nodes: set<Id>, edges: set<Id>, nodes': set<Id>, edges': set<Id>)
    requires FlaggedBut(before, was, nodes, edges, ks, calls)
    requires nodes <= Provisional(before.nodes) && edges <= Inferred(before.edges)
    requires
      var page := Elements(PageAt(was, cursor, batch));
      if OnEdges(cursor) then page <= edges && edges' == edges - page && nodes' == nodes
      else page <= nodes && nodes' == nodes - page && edges' == edges
    ensures FlaggedBut(before, Flagged(was, cursor, batch, ks(calls)), nodes', edges', ks, calls + 1)
  {
    var page := Elements(PageAt(was, cursor, batch));
    if OnEdges(cursor) {
      EdgePageFlagged(before, was, nodes, edges, page, ks, calls);
    } else {
      NodePageFlagged(before, was, nodes, edges, page, ks, calls);
    }
  }

  lemma SameReport(before: Graph, was: Graph, nodes: set<Id>, edges: set<Id>, ks: nat -> Knobs, calls: nat,
                   cursor: string, batch: nat)
    requires FlaggedBut(before, was, nodes, edges, ks, calls)
    ensures PageAt(was, cursor, batch) == PageAt(before, cursor, batch)
    ensures Reported(was, cursor, batch) == Reported(before, cursor, batch)
  {
    ScansKept(before, was, nodes, edges, ks, calls);
  }

  lemma PendingInside(g: Graph, cursor: string)
    ensures PendingNodes(g, cursor, false) <= Provisional(g.nodes)
    ensures PendingEdges(g, cursor, false) <= Inferred(g.edges)
  {
  }

  lemma RunFlags(before: Graph, was: Graph, cursor: string, batch: nat, ks: nat -> Knobs, calls: nat)
    requires batch >= 1 && PendingAdvanced(before, cursor, batch)
    requires
      FlaggedBut(before, was, PendingNodes(before, cursor, false), PendingEdges(before, cursor, false), ks, calls)
    ensures Reported(was, cursor, batch) == Reported(before, cursor, batch)
    ensures
      var r := Reported(before, cursor, batch);
      FlaggedBut(before, Flagged(was, cursor, batch, ks(calls)), PendingNodes(before, r.cursor, r.done),
                 PendingEdges(before, r.cursor, r.done), ks, calls + 1)
  {
    var nodes, edges := PendingNodes(before, cursor, false), PendingEdges(before, cursor, false);
    PendingInside(before, cursor);
    SameReport(before, was, nodes, edges, ks, calls, cursor, batch);
    var r := Reported(before, cursor, batch);
    FlagsAdvance(before, was, cursor, batch, ks, calls, nodes, edges,
                 PendingNodes(before, r.cursor, r.done), PendingEdges(before, r.cursor, r.done));
  }

  /** Each call takes one page off the scan it is in; the node scan hands over once. */
  lemma RunAdvances(before: Graph, was: Graph, cursor: string, batch: nat, ks: nat -> Knobs, calls: nat, count: nat)
    requires batch >= 1 && PlainIds(before) && Running(before, was, cursor, false, batch, ks, calls, count)
    ensures
      var r := Reported(was, cursor, batch);
      && Running(before, Flagged(was, cursor, batch, ks(calls)), r.cursor, r.done, batch, ks,
                 calls + 1, count + r.count)
      && CallsLeft(before, r.cursor, r.done, batch) < CallsLeft(before, cursor, false, batch)
  {
    PendingAdvances(before, cursor, batch);
    RunFlags(before, was, cursor, batch, ks, calls);
  }

  lemma EdgeCursorRoundTrip(g: Graph, id: Id)
    requires id in g.edges && PlainIds(g)
    ensures OnEdges(EDGE_PHASE_PREFIX + id) && RawCursor(EDGE_PHASE_PREFIX + id) == Some(id)
  {
    assert (EDGE_PHASE_PREFIX + id)[|EDGE_PHASE_PREFIX|..] == id;
  }

  lemma NodeCursorRoundTrip(g: Graph, id: Id)
    requires id in Provisional(g.nodes) && PlainIds(g)
    ensures !OnEdges(id) && RawCursor(id) == Some(id)
  {
  }

  /** The bare prefix starts the edge scan from the beginning. */
  lemma HandOver(g: Graph)
    ensures OnEdges(EDGE_PHASE_PREFIX) && Left(g, EDGE_PHASE_PREFIX) == Inferred(g.edges)
  {
    assert RawCursor(EDGE_PHASE_PREFIX) == None;
  }

  // ---- Clocks, retries and hostile ids ----

  /** With the knobs fixed and the clock between two instants for the whole run, a node already
      stale at the first ends flagged and a node not yet stale at the second does not; every
      edge flag is the predicate's value. */
  lemma FlagsFollowClock(before: Graph, after: Graph, ks: nat -> Knobs, calls: nat, from: Knobs, to: Knobs)
    requires NodesFlagged(before.nodes, after.nodes, Provisional(before.nodes), ks, calls)
    requires EdgesFlagged(before.edges, after.edges, Inferred(before.edges), ks, calls)
    requires forall k: nat :: k < calls ==> ks(k) == from.(now := ks(k).now) == to.(now := ks(k).now)
    requires forall k: nat :: k < calls ==> from.now <= ks(k).now <= to.now
    ensures forall i :: i in Provisional(before.nodes) ==>
      && (StaleNode(before.nodes[i], from) ==> after.nodes[i].pruneCandidate == Some(true))
      && (!StaleNode(before.nodes[i], to) ==> after.nodes[i].pruneCandidate == Some(false))
    ensures forall i :: i in Inferred(before.edges) ==>
      after.edges[i].pruneCandidate == Some(PrunableEdge(before.edges[i], from))
  {
    forall i | i in Provisional(before.nodes)
      ensures StaleNode(before.nodes[i], from) ==> after.nodes[i].pruneCandidate == Some(true)
      ensures !StaleNode(before.nodes[i], to) ==> after.nodes[i].pruneCandidate == Some(false)
    {
      var k: nat :| k < calls && after.nodes[i] == FlagNode(before.nodes[i], ks(k));
      StaleLater(before.nodes[i], from, ks(k));
      StaleLater(before.nodes[i], ks(k), to);
    }
    forall i | i in Inferred(before.edges)
      ensures after.edges[i].pruneCandidate == Some(PrunableEdge(before.edges[i], from))
    {
      var k: nat :| k < calls && after.edges[i] == FlagEdge(before.edges[i], ks(k));
    }
  }

  /** A missing confidence counts as zero. */
  predicate Under(confidence: Option<real>, floor: real) {
    match confidence
    case Some(c) => c < floor
    case None => 0.0 < floor
  }

  /** With knobs and clock the same throughout: a provisional node ends flagged, with the reason,
      exactly when it is under its floor and was first seen more than the stale days ago, and
      an inferred edge exactly when it is under its floor and no feed asserts it; everything
      else about them, and every other node and edge, is as it was. */
  lemma FlagsSayWhy(before: Graph, after: Graph, ks: nat -> Knobs, calls: nat, k: Knobs)
    requires NodesFlagged(before.nodes, after.nodes, Provisional(before.nodes), ks, calls)
    requires EdgesFlagged(before.edges, after.edges, Inferred(before.edges), ks, calls)
    requires forall j: nat :: j < calls ==> ks(j) == k
    ensures forall i :: i in before.nodes ==>
      var was, now := before.nodes[i], after.nodes[i];
      if !was.provisional then now == was
      else
        var due := Under(was.confidence, k.nodeFloor) && was.firstSeen.Some? &&
          (k.now - was.firstSeen.value) as real > k.staleDays * 86400.0;
        && now.pruneCandidate == Some(due)
        && now.pruneReason == (if due then Some("stale_low_confidence_provisional") else None)
        && now == was.(pruneCandidate := now.pruneCandidate, pruneReason := now.pruneReason)
    ensures forall i :: i in before.edges ==>
      var was, now := before.edges[i], after.edges[i];
      if was.inferred.None? then now == was
      else
        && (now.pruneCandidate == Some(Under(was.confidence, k.edgeFloor) && "authoritative" !in was.origin))
        && now == was.(pruneCandidate := now.pruneCandidate)
  {
    forall i | i in before.nodes && before.nodes[i].provisional
      ensures after.nodes[i] == FlagNode(before.nodes[i], k)
    {
      assert i in Provisional(before.nodes);
    }
    forall i | i in before.nodes && !before.nodes[i].provisional ensures after.nodes[i] == before.nodes[i] {
      assert i !in Provisional(before.nodes);
    }
    forall i | i in before.edges && before.edges[i].inferred.Some?
      ensures after.edges[i] == FlagEdge(before.edges[i], k)
    {
      assert i in Inferred(before.edges);
    }
    forall i | i in before.edges && before.edges[i].inferred.None? ensures after.edges[i] == before.edges[i] {
      assert i !in Inferred(before.edges);
    }
  }

  lemma StaleLater(n: Node, k: Knobs, later: Knobs)
    requires later == k.(now := later.now) && k.now <= later.now
    ensures StaleNode(n, k) ==> StaleNode(n, later)
  {
  }

  /** A retried page, whatever its clock reads by then, scans the same ids and leaves what the
      retry alone would have left: the first attempt leaves no trace. */
  lemma RetryReplaces(g: Graph, cursor: string, batch: nat, k: Knobs, again: Knobs)
    ensures
      var once := Flagged(g, cursor, batch, k);
      && Flagged(once, cursor, batch, again) == Flagged(g, cursor, batch, again)
      && Reported(once, cursor, batch) == Reported(g, cursor, batch)
  {
    SamePage(g, cursor, batch, k);
    FlagTwice(g.nodes, g.edges, Elements(PageAt(g, cursor, batch)), k, again);
  }

  lemma FlagTwice(nodes: map<Id, Node>, edges: map<Id, Edge>, ids: set<Id>, k: Knobs, again: Knobs)
    ensures FlagNodes(FlagNodes(nodes, ids, k), ids, again) == FlagNodes(nodes, ids, again)
    ensures FlagEdges(FlagEdges(edges, ids, k), ids, again) == FlagEdges(edges, ids, again)
  {
  }

  lemma SamePage(g: Graph, cursor: string, batch: nat, k: Knobs)
    ensures PageAt(Flagged(g, cursor, batch, k), cursor, batch) == PageAt(g, cursor, batch)
  {
    var ids := Elements(PageAt(g, cursor, batch));
    assert Provisional(FlagNodes(g.nodes, ids, k)) == Provisional(g.nodes);
    assert Inferred(FlagEdges(g.edges, ids, k)) == Inferred(g.edges);
  }

  /** So a retry changes nothing if and only if no node and no edge of the page has crossed its
      predicate since; with the same clock and knobs it never does. */
  lemma {:induction false} RetryIsNoOp(g: Graph, cursor: string, batch: nat, k: Knobs, again: Knobs)
    ensures
      var once := Flagged(g, cursor, batch, k);
      Flagged(once, cursor, batch, again) == once <==>
        forall i :: i in PageAt(g, cursor, batch) ==>
          if OnEdges(cursor) then i in g.edges && PrunableEdge(g.edges[i], k) == PrunableEdge(g.edges[i], again)
          else i in g.nodes && StaleNode(g.nodes[i], k) == StaleNode(g.nodes[i], again)
  {
    RetryReplaces(g, cursor, batch, k, again);
    PageScanned(g, cursor, batch);
    var once, twice := Flagged(g, cursor, batch, k), Flagged(g, cursor, batch, again);
    if OnEdges(cursor) {
      forall i | i in PageAt(g, cursor, batch)
        ensures once.edges[i] == twice.edges[i] <==> PrunableEdge(g.edges[i], k) == PrunableEdge(g.edges[i], again)
      {
        assert i in Elements(PageAt(g, cursor, batch));
      }
      assert once == twice <==> once.edges == twice.edges;
    } else {
      forall i | i in PageAt(g, cursor, batch)
        ensures once.nodes[i] == twice.nodes[i] <==> StaleNode(g.nodes[i], k) == StaleNode(g.nodes[i], again)
      {
        assert i in Elements(PageAt(g, cursor, batch));
      }
      assert once == twice <==> once.nodes == twice.nodes;
    }
  }

  lemma PageScanned(g: Graph, cursor: string, batch: nat)
    ensures forall i :: i in PageAt(g, cursor, batch) ==> if OnEdges(cursor) then i in g.edges else i in g.nodes
  {
    var ids := if OnEdges(cursor) then Inferred(g.edges) else Provisional(g.nodes);
    assert forall i :: i in PageAt(g, cursor, batch) ==> i in Sorted(Beyond(ids, RawCursor(cursor)));
  }

  /** The loop cut off after at most `|ks|` calls. */
  function AfterCalls(g: Graph, cursor: string, batch: nat, ks: seq<Knobs>): Graph
    decreases |ks|
  {
    if ks == [] then g
    else
      var next, r := Flagged(g, cursor, batch, ks[0]), Reported(g, cursor, batch);
      if r.done then next else AfterCalls(next, r.cursor, batch, ks[1..])
  }

  /** Once a cursor carries the prefix no later call touches a node. */
  lemma {:induction false} EdgeScanLeavesNodes(g: Graph, cursor: string, batch: nat, ks: seq<Knobs>)
    requires OnEdges(cursor)
    ensures AfterCalls(g, cursor, batch, ks).nodes == g.nodes
    decreases |ks|
  {
    if ks != [] && !Reported(g, cursor, batch).done {
      EdgeScanLeavesNodes(Flagged(g, cursor, batch, ks[0]), Reported(g, cursor, batch).cursor, batch, ks[1..]);
    }
  }

  /** Why node ids must not start with the prefix: when a page ends with such an id the loop
      takes it for an edge cursor, and no node beyond the page is ever flagged. */
  lemma PrefixedIdHidesNodes(g: Graph, cursor: string, batch: nat, ks: seq<Knobs>)
    requires !OnEdges(cursor)
    requires PageAt(g, cursor, batch) != [] && OnEdges(PageAt(g, cursor, batch)[|PageAt(g, cursor, batch)| - 1])
    ensures AfterCalls(g, cursor, batch, ks).nodes.Keys == g.nodes.Keys
    ensures forall i :: i in g.nodes && i !in PageAt(g, cursor, batch) ==>
      AfterCalls(g, cursor, batch, ks).nodes[i] == g.nodes[i]
  {
    if ks != [] {
      EdgeScanLeavesNodes(Flagged(g, cursor, batch, ks[0]), Reported(g, cursor, batch).cursor, batch, ks[1..]);
    }
  }

  /** How far into the sorted list of provisional ids the first `calls` calls get, from place
      `from` on, before a page ends with an id that is taken for an edge cursor. */
  function Reached(all: seq<Id>, from: nat, batch: nat, calls: nat): nat
    requires batch >= 1
    decreases calls
  {
    if calls == 0 || from >= |all| then from
    else
      var next := if from + batch < |all| then from + batch else |all|;
      if OnEdges(all[next - 1]) then next else Reached(all, next, batch, calls - 1)
  }

  /** No page but the last ends with an id that carries the prefix. */
  predicate CleanEnds(all: seq<Id>, from: nat, batch: nat)
    requires batch >= 1
    decreases |all| - from
  {
    from + batch >= |all| || (!OnEdges(all[from + batch - 1]) && CleanEnds(all, from + batch, batch))
  }

  /** With calls enough the node scan reaches the end of the list if and only if that is so. */
  lemma {:induction false} ReachesEndExactly(all: seq<Id>, from: nat, batch: nat, calls: nat)
    requires batch >= 1 && from <= |all| && calls >= |all| - from
    ensures from <= Reached(all, from, batch, calls) <= |all|
    ensures Reached(all, from, batch, calls) == |all| <==> CleanEnds(all, from, batch)
    decreases calls
  {
    if from < |all| {
      var next := if from + batch < |all| then from + batch else |all|;
      if !OnEdges(all[next - 1]) {
        ReachesEndExactly(all, next, batch, calls - 1);
      }
    }
  }

  /** The scan with this cursor has the list `all` left from place `from` on. */
  ghost predicate At(ids: set<Id>, cursor: Option<Id>, all: seq<Id>, from: nat) {
    Increasing(all) && from <= |all| && forall x :: x in Beyond(ids, cursor) <==> x in all[from..]
  }

  lemma PageIsSlice(ids: set<Id>, cursor: Option<Id>, batch: nat, all: seq<Id>, from: nat)
    requires At(ids, cursor, all, from)
    ensures Page(ids, cursor, batch) == all[from..if from + batch < |all| then from + batch else |all|]
  {
    var left := all[from..];
    SortedUnique(left, Beyond(ids, cursor));
    assert from + batch < |all| ==> left[..batch] == all[from..from + batch];
  }

  lemma PageFrom(ids: set<Id>, cursor: Option<Id>, batch: nat, all: seq<Id>, from: nat)
    requires batch >= 1 && At(ids, cursor, all, from)
    ensures
      var next := if from + batch < |all| then from + batch else |all|;
      && Page(ids, cursor, batch) == all[from..next]
      && (from < |all| ==> all[next - 1] in ids && At(ids, Some(all[next - 1]), all, next))
  {
    var next := if from + batch < |all| then from + batch else |all|;
    PageIsSlice(ids, cursor, batch, all, from);
    if from < |all| {
      PageTakes(ids, cursor, batch);
      RestOfList(all, from, next);
      NextAt(ids, cursor, all, from, next);
    }
  }

  lemma NextAt(ids: set<Id>, cursor: Option<Id>, all: seq<Id>, from: nat, next: nat)
    requires At(ids, cursor, all, from) && from < next <= |all|
    requires Beyond(ids, LastOf(all[from..next])) == Beyond(ids, cursor) - Elements(all[from..next])
    requires forall x :: x in all[next..] <==> x in all[from..] && x !in all[from..next]
    ensures At(ids, Some(all[next - 1]), all, next)
  {
    assert LastOf(all[from..next]) == Some(all[next - 1]);
  }

  lemma RestOfList(all: seq<Id>, from: nat, next: nat)
    requires Increasing(all) && from <= next <= |all|
    ensures forall x :: x in all[next..] <==> x in all[from..] && x !in all[from..next]
  {
    assert all[from..] == all[from..next] + all[next..];
    forall i, j | from <= i < next && next <= j < |all| ensures all[i] != all[j] {
      assert Lt(all[i], all[j]);
      Trichotomy(all[i], all[j]);
    }
  }

  /** What the first `|ks|` calls do to the nodes: exactly those scanned are flagged, each by
      one of the calls; the others are as they were. */
  ghost predicate FlaggedByCalls(was: map<Id, Node>, now: map<Id, Node>, ids: set<Id>, ks: seq<Knobs>) {
    && now.Keys == was.Keys
    && (forall i :: i in was && i !in ids ==> now[i] == was[i])
    && (forall i :: i in was && i in ids ==> exists k :: 0 <= k < |ks| && now[i] == FlagNode(was[i], ks[k]))
  }

  /** The first `|ks|` calls from this cursor flag what they reach of the list. */
  ghost predicate FlagsReached(g: Graph, cursor: string, batch: nat, ks: seq<Knobs>, all: seq<Id>, from: nat)
    requires batch >= 1
  {
    var reach := Reached(all, from, batch, |ks|);
    from <= reach <= |all| &&
    FlaggedByCalls(g.nodes, AfterCalls(g, cursor, batch, ks).nodes, Elements(all[from..reach]), ks)
  }

  lemma {:induction false} ReachedAreFlagged(g: Graph, cursor: string, batch: nat, ks: seq<Knobs>, all: seq<Id>,
                                             from: nat)
    requires batch >= 1 && "" !in g.nodes && !OnEdges(cursor)
    requires At(Provisional(g.nodes), RawCursor(cursor), all, from)
    ensures FlagsReached(g, cursor, batch, ks, all, from)
    decreases |ks|
  {
    if ks == [] || from == |all| {
      NothingReached(g, cursor, batch, ks, all, from);
    } else {
      var next, mid := FirstCall(g, cursor, batch, ks, all, from);
      if OnEdges(all[next - 1]) {
        LastReached(g, cursor, batch, ks, all, from, next, mid);
      } else {
        ReachedAreFlagged(mid, all[next - 1], batch, ks[1..], all, next);
        MoreReached(g, cursor, batch, ks, all, from, next, mid);
      }
    }
  }

  lemma NothingReached(g: Graph, cursor: string, batch: nat, ks: seq<Knobs>, all: seq<Id>, from: nat)
    requires batch >= 1 && !OnEdges(cursor) && At(Provisional(g.nodes), RawCursor(cursor), all, from)
    requires ks == [] || from == |all|
    ensures FlagsReached(g, cursor, batch, ks, all, from)
  {
    assert Elements(all[from..from]) == {};
    if ks != [] {
      PageFrom(Provisional(g.nodes), RawCursor(cursor), batch, all, from);
      HandedOver(g, cursor, batch, ks);
    }
  }

  lemma LastReached(g: Graph, cursor: string, batch: nat, ks: seq<Knobs>, all: seq<Id>, from: nat, next: nat,
                    mid: Graph)
    requires batch >= 1 && ks != [] && from < next <= |all|
    requires next == (if from + batch < |all| then from + batch else |all|) && OnEdges(all[next - 1])
    requires mid.nodes == FlagNodes(g.nodes, Elements(all[from..next]), ks[0])
    requires AfterCalls(g, cursor, batch, ks) == AfterCalls(mid, all[next - 1], batch, ks[1..])
    ensures FlagsReached(g, cursor, batch, ks, all, from)
  {
    EdgeScanLeavesNodes(mid, all[next - 1], batch, ks[1..]);
    UntouchedByCalls(mid.nodes, ks[1..]);
    FlaggedOnceMore(g.nodes, mid.nodes, mid.nodes, Elements(all[from..next]), {}, ks);
    assert Elements(all[from..next]) + {} == Elements(all[from..next]);
  }

  lemma MoreReached(g: Graph, cursor: string, batch: nat, ks: seq<Knobs>, all: seq<Id>, from: nat, next: nat,
                    mid: Graph)
    requires batch >= 1 && ks != [] && from < next <= |all|
    requires next == (if from + batch < |all| then from + batch else |all|) && !OnEdges(all[next - 1])
    requires mid.nodes == FlagNodes(g.nodes, Elements(all[from..next]), ks[0])
    requires AfterCalls(g, cursor, batch, ks) == AfterCalls(mid, all[next - 1], batch, ks[1..])
    requires FlagsReached(mid, all[next - 1], batch, ks[1..], all, next)
    ensures FlagsReached(g, cursor, batch, ks, all, from)
  {
    var reach := Reached(all, next, batch, |ks[1..]|);
    var page, later := Elements(all[from..next]), Elements(all[next..reach]);
    FlaggedOnceMore(g.nodes, mid.nodes, AfterCalls(g, cursor, batch, ks).nodes, page, later, ks);
    assert Reached(all, from, batch, |ks|) == reach;
    assert all[from..reach] == all[from..next] + all[next..reach];
    assert Elements(all[from..reach]) == page + later;
  }

  /** The first call of a node scan that has something left. */
  lemma FirstCall(g: Graph, cursor: string, batch: nat, ks: seq<Knobs>, all: seq<Id>, from: nat)
    returns (next: nat, mid: Graph)
    requires batch >= 1 && "" !in g.nodes && !OnEdges(cursor) && ks != [] && from < |all|
    requires At(Provisional(g.nodes), RawCursor(cursor), all, from)
    ensures next == (if from + batch < |all| then from + batch else |all|)
    ensures mid.nodes == FlagNodes(g.nodes, Elements(all[from..next]), ks[0]) && "" !in mid.nodes
    ensures AfterCalls(g, cursor, batch, ks) == AfterCalls(mid, all[next - 1], batch, ks[1..])
    ensures !OnEdges(all[next - 1]) ==> At(Provisional(mid.nodes), RawCursor(all[next - 1]), all, next)
  {
    next := if from + batch < |all| then from + batch else |all|;
    mid := Flagged(g, cursor, batch, ks[0]);
    PageFrom(Provisional(g.nodes), RawCursor(cursor), batch, all, from);
    FlagsKeepProvisional(g.nodes, Elements(all[from..next]), ks[0]);
    assert PageAt(g, cursor, batch) == all[from..next];
    assert Reported(g, cursor, batch).cursor == all[next - 1];
  }

  /** An empty page of nodes hands over to the edges and touches no node. */
  lemma HandedOver(g: Graph, cursor: string, batch: nat, ks: seq<Knobs>)
    requires ks != [] && !OnEdges(cursor) && PageAt(g, cursor, batch) == []
    ensures FlaggedByCalls(g.nodes, AfterCalls(g, cursor, batch, ks).nodes, {}, ks)
  {
    EdgeScanLeavesNodes(Flagged(g, cursor, batch, ks[0]), EDGE_PHASE_PREFIX, batch, ks[1..]);
  }

  lemma UntouchedByCalls(nodes: map<Id, Node>, ks: seq<Knobs>)
    ensures FlaggedByCalls(nodes, nodes, {}, ks)
  {
  }

  lemma FlagsKeepProvisional(nodes: map<Id, Node>, ids: set<Id>, k: Knobs)
    ensures Provisional(FlagNodes(nodes, ids, k)) == Provisional(nodes)
  {
  }

  lemma FlaggedOnceMore(was: map<Id, Node>, next: map<Id, Node>, after: map<Id, Node>, page: set<Id>, later: set<Id>,
                        ks: seq<Knobs>)
    requires ks != [] && next == FlagNodes(was, page, ks[0]) && FlaggedByCalls(next, after, later, ks[1..])
    ensures FlaggedByCalls(was, after, page + later, ks)
  {
    forall i | i in was && i in page + later
      ensures exists k :: 0 <= k < |ks| && after[i] == FlagNode(was[i], ks[k])
    {
      FlaggedByOneOf(was[i], next[i], after[i], i in page, i in later, ks);
    }
  }

  lemma FlaggedByOneOf(was: Node, next: Node, after: Node, first: bool, later: bool, ks: seq<Knobs>)
    requires ks != [] && (first || later)
    requires next == if first then FlagNode(was, ks[0]) else was
    requires !later ==> after == next
    requires later ==> exists k :: 0 <= k < |ks[1..]| && after == FlagNode(next, ks[1..][k])
    ensures exists k :: 0 <= k < |ks| && after == FlagNode(was, ks[k])
  {
    if later {
      var k :| 0 <= k < |ks[1..]| && after == FlagNode(next, ks[1..][k]);
      assert ks[1..][k] == ks[k + 1];
      assert after == FlagNode(was, ks[k + 1]);
    } else {
      assert after == FlagNode(was, ks[0]);
    }
  }

  /** The whole node scan, with calls enough: some set of provisional nodes is flagged and every
      other node left as it was; it is all of them if and only if no page but the last ends
      with a prefixed id. */
  lemma {:induction false} NodesFlaggedExactly(g: Graph, batch: nat, ks: seq<Knobs>) returns (reached: set<Id>)
    requires batch >= 1 && "" !in g.nodes && |ks| >= |Provisional(g.nodes)|
    ensures FlaggedByCalls(g.nodes, AfterCalls(g, "", batch, ks).nodes, reached, ks)
    ensures reached <= Provisional(g.nodes)
    ensures reached == Provisional(g.nodes) <==> CleanEnds(Sorted(Provisional(g.nodes)), 0, batch)
  {
    var ids := Provisional(g.nodes);
    var all := Sorted(ids);
    SortedIncreases(ids);
    assert Beyond(ids, None) == ids && all[0..] == all;
    ReachedAreFlagged(g, "", batch, ks, all, 0);
    ReachesEndExactly(all, 0, batch, |ks|);
    var reach := Reached(all, 0, batch, |ks|);
    RestOfList(all, 0, reach);
    reached := Elements(all[0..reach]);
    assert reach < |all| ==> all[reach] in all[reach..];
  }

  /** For instance: of two provisional nodes, one page apart, the second keeps the flag it had
      through any number of calls, however stale it is. */
  lemma PrefixedIdLeavesStaleNode(n: Node, ks: seq<Knobs>)
    requires n.provisional
    ensures
      var after := AfterCalls(Graph(map["edges:a" := n, "f" := n], map[]), "", 1, ks);
      "f" in after.nodes && after.nodes["f"] == n
  {
    var g := Graph(map["edges:a" := n, "f" := n], map[]);
    var ids := {"edges:a", "f"};
    assert Provisional(g.nodes) == ids && Beyond(ids, None) == ids;
    assert Lt("edges:a", "f");
    Trichotomy("edges:a", "f");
    assert Min(ids) == "edges:a";
    SortedIncreases(ids);
    assert Sorted(ids)[0] == "edges:a";
    assert PageAt(g, "", 1) == ["edges:a"];
    PrefixedIdHidesNodes(g, "", 1, ks);
  }
}
