/** The withdrawal phase: exported nodes that no longer pass the gate are revoked, page by
    page, although each page removes nodes from its own scan predicate. */
module Withdrawal {
  import opened Options
  import opened Ordering
  import opened Chronology
  import opened Paging

  /** `exportable` says the node carries one of the exportable labels. */
  datatype Node = Node(
    exportable: bool,
    exported: bool,
    confidence: Option<real>,
    pruneCandidate: Option<bool>,
    revoked: bool,
    lastUpdated: Instant)

  type Nodes = map<Id, Node>

  /** What one invocation reads for itself: the configured floor and the clock. */
  datatype Knobs = Knobs(floor: real, now: Instant)

  predicate GatedOut(n: Node, floor: real) {
    n.confidence.GetOr(0.0) < floor || n.pruneCandidate.GetOr(false)
  }

  function Revoked(n: Node, now: Instant): Node {
    n.(revoked := true, exported := false, lastUpdated := now)
  }

  function Exported(nodes: Nodes): set<Id> {
    set i | i in nodes && nodes[i].exportable && nodes[i].exported
  }

  function RevokedAmong(nodes: Nodes, ids: set<Id>, floor: real, now: Instant): Nodes {
    map i | i in nodes :: if i in ids && GatedOut(nodes[i], floor) then Revoked(nodes[i], now) else nodes[i]
  }

  class ExportGraph {
    var nodes: Nodes

    constructor (nodes: Nodes)
      ensures this.nodes == nodes
    {
      this.nodes := nodes;
    }

    /** One page: scan, then revoke only within the ids the scan captured. */
    method RevokeBatch(cursor: Option<Id>, batch: nat, floor: real, now: Instant) returns (count: nat, next: Option<Id>)
      modifies `nodes
      ensures nodes == RevokedAmong(old(nodes), Elements(Page(Exported(old(nodes)), cursor, batch)), floor, now)
      ensures next == LastOf(Page(Exported(old(nodes)), cursor, batch))
      ensures count == |GatedAmong(old(nodes), Elements(Page(Exported(old(nodes)), cursor, batch)), floor)|
    {
      var page := Page(Exported(nodes), cursor, batch);
      next := LastOf(page);
      PageIncreases(Exported(nodes), cursor, batch);
      count := RevokeById(page, floor, now);
    }

    /** The UNWIND over the captured ids; the count is of the nodes revoked. */
    method RevokeById(page: seq<Id>, floor: real, now: Instant) returns (count: nat)
      requires Increasing(page)
      modifies `nodes
      ensures nodes == RevokedAmong(old(nodes), Elements(page), floor, now)
      ensures count == |GatedAmong(old(nodes), Elements(page), floor)|
    {
      count := 0;
      ghost var before := nodes;
      for i := 0 to |page|
        invariant nodes == RevokedAmong(before, Elements(page[..i]), floor, now)
        invariant count == |GatedAmong(before, Elements(page[..i]), floor)|
      {
        NextOnPage(before, page, i, floor, now);
        if page[i] in nodes && GatedOut(nodes[page[i]], floor) {
          nodes := nodes[page[i] := Revoked(nodes[page[i]], now)];
          count := count + 1;
        }
      }
      assert page[..|page|] == page;
    }

    /** One call of a run. When its response is lost the caller is left with the cursor it had. */
    method Call(ghost before: Nodes, cursor: Option<Id>, batch: nat, ks: nat -> Knobs, calls: nat, visited: seq<Id>,
                ghost quiet: bool, isLost: bool)
      returns (next: Option<Id>, done: bool, page: seq<Id>)
      requires batch >= 1 && Underway(before, nodes, cursor, false, batch, ks, calls, visited, quiet)
      requires quiet ==> !isLost
      modifies `nodes
      ensures Underway(before, nodes, next, done, batch, ks, calls + 1, visited + page, quiet)
      ensures !isLost ==> Todo(nodes, next, done) < Todo(old(nodes), cursor, false)
      ensures isLost ==> next == cursor && !done
    {
      CallAdvances(before, nodes, cursor, batch, ks, calls, visited, quiet, isLost);
      page := Page(Exported(nodes), cursor, batch);
      var count, reported := RevokeBatch(cursor, batch, ks(calls).floor, ks(calls).now);
      next, done := if isLost then cursor else reported, !isLost && reported.None?;
    }

    /** The phase run to the end. The k-th call reads its own floor and clock, `ks(k)`; `lost[k]`
        says that call committed but its response was lost, so it is retried with the same
        cursor. Whatever was lost, the final graph is the withdrawn one; when nothing was, every
        exported node was visited exactly once, in one call a page and one that finds nothing. */
    method Run(batch: nat, ks: nat -> Knobs, lost: seq<bool>) returns (visited: seq<Id>, calls: nat)
      requires batch >= 1
      modifies `nodes
      ensures WithdrawnBy(old(nodes), nodes, ks, calls)
      ensures (forall k :: 0 <= k < |lost| ==> !lost[k]) ==>
        visited == Sorted(Exported(old(nodes))) && calls == Pages(|Exported(old(nodes))|, batch) + 1
    {
      ghost var before := nodes;
      ghost var quiet := forall k :: 0 <= k < |lost| ==> !lost[k];
      var cursor: Option<Id>, done := None, false;
      visited, calls := [], 0;
      RunStarts(before, batch, ks, quiet);
      while !done
        invariant Underway(before, nodes, cursor, done, batch, ks, calls, visited, quiet)
        decreases if calls < |lost| then |lost| - calls else 0, Todo(nodes, cursor, done)
      {
        var page;
        cursor, done, page := Call(before, cursor, batch, ks, calls, visited, quiet, calls < |lost| && lost[calls]);
        visited, calls := visited + page, calls + 1;
      }
      RunEnds(before, nodes, cursor, batch, ks, calls, visited, quiet);
    }
  }

  /** `n` is `was` revoked by one of the first `calls` calls, at whose floor it is gated out. */
  ghost predicate RevokedBy(was: Node, n: Node, ks: nat -> Knobs, calls: nat) {
    exists k: nat :: k < calls && GatedOut(was, ks(k).floor) && n == Revoked(was, ks(k).now)
  }

  /** `n` is `was` untouched, and one of those calls had it pass the gate. */
  ghost predicate PassedBy(was: Node, n: Node, ks: nat -> Knobs, calls: nat) {
    n == was && exists k: nat :: k < calls && !GatedOut(was, ks(k).floor)
  }

  ghost predicate Settled(was: Node, n: Node, ks: nat -> Knobs, calls: nat) {
    RevokedBy(was, n, ks, calls) || PassedBy(was, n, ks, calls)
  }

  /** What the phase is for: every exported node is revoked or has passed, and nothing else is
      touched. */
  ghost predicate WithdrawnBy(before: Nodes, after: Nodes, ks: nat -> Knobs, calls: nat) {
    && after.Keys == before.Keys
    && forall i :: i in before ==>
         if i in Exported(before) then Settled(before[i], after[i], ks, calls) else after[i] == before[i]
  }

  function Todo(nodes: Nodes, cursor: Option<Id>, done: bool): nat {
    if done then 0 else 1 + |Beyond(Exported(nodes), cursor)|
  }

  /** Some exported nodes have been revoked; all up to the cursor are settled. */
  ghost predicate Running(before: Nodes, nodes: Nodes, cursor: Option<Id>, done: bool, ks: nat -> Knobs, calls: nat) {
    && nodes.Keys == before.Keys
    && (forall i :: i in nodes && nodes[i] != before[i] ==>
          i in Exported(before) && RevokedBy(before[i], nodes[i], ks, calls))
    && (forall i :: i in Exported(before) && (done || i !in Beyond(Exported(before), cursor)) ==>
          Settled(before[i], nodes[i], ks, calls))
  }

  /** With no response lost: the visited ids are the exported ones up to the cursor, in order,
      and what is still to be scanned is what was exported beyond it at the start. */
  ghost predicate Steady(before: Nodes, nodes: Nodes, cursor: Option<Id>, done: bool, visited: seq<Id>) {
    && Increasing(visited)
    && Elements(visited) == Exported(before) - (if done then {} else Beyond(Exported(before), cursor))
    && (!done ==> Beyond(Exported(nodes), cursor) == Beyond(Exported(before), cursor))
    && (!done && cursor.Some? ==> forall v :: v in visited ==> Le(v, cursor.value))
    && (cursor.None? && !done ==> visited == [])
  }

  /** One call was made for each page up to the cursor, and one more at the end. */
  predicate Counting(before: Nodes, cursor: Option<Id>, done: bool, batch: nat, calls: nat)
    requires batch >= 1
  {
    var all := Pages(|Exported(before)|, batch);
    if done then calls == all + 1 else calls + Pages(|Beyond(Exported(before), cursor)|, batch) == all
  }

  /** All together; `quiet` says no response is ever lost. */
  ghost predicate Underway(before: Nodes, nodes: Nodes, cursor: Option<Id>, done: bool, batch: nat, ks: nat -> Knobs,
                           calls: nat, visited: seq<Id>, quiet: bool)
    requires batch >= 1
  {
    && Running(before, nodes, cursor, done, ks, calls)
    && (quiet ==> Steady(before, nodes, cursor, done, visited) && Counting(before, cursor, done, batch, calls))
  }

  function GatedAmong(nodes: Nodes, ids: set<Id>, floor: real): set<Id> {
    set i | i in ids && i in nodes && GatedOut(nodes[i], floor)
  }

  lemma RevokeNext(nodes: Nodes, ids: set<Id>, i: Id, floor: real, now: Instant)
    requires i !in ids
    ensures
      var done := RevokedAmong(nodes, ids, floor, now);
      && (i in done ==> done[i] == nodes[i])
      && RevokedAmong(nodes, ids + {i}, floor, now) ==
           if i in done && GatedOut(done[i], floor) then done[i := Revoked(done[i], now)] else done
  {
  }

  /** The next id of a page: not seen before on it, revoked and counted if gated out. */
  lemma NextOnPage(nodes: Nodes, page: seq<Id>, i: nat, floor: real, now: Instant)
    requires Increasing(page) && i < |page|
    ensures
      var done := RevokedAmong(nodes, Elements(page[..i]), floor, now);
      var more := RevokedAmong(nodes, Elements(page[..i + 1]), floor, now);
      var due := page[i] in done && GatedOut(done[page[i]], floor);
      && more == (if due then done[page[i] := Revoked(done[page[i]], now)] else done)
      && |GatedAmong(nodes, Elements(page[..i + 1]), floor)|
           == |GatedAmong(nodes, Elements(page[..i]), floor)| + if due then 1 else 0
  {
    NextId(page, i);
    RevokeNext(nodes, Elements(page[..i]), page[i], floor, now);
    GatedNext(nodes, Elements(page[..i]), page[i], floor);
  }

  lemma NextId(page: seq<Id>, i: nat)
    requires Increasing(page) && i < |page|
    ensures Elements(page[..i + 1]) == Elements(page[..i]) + {page[i]} && page[i] !in Elements(page[..i])
  {
    assert page[..i + 1] == page[..i] + [page[i]];
    if page[i] in page[..i] {
      var j :| 0 <= j < i && page[j] == page[i];
      assert Lt(page[j], page[i]);
      Trichotomy(page[j], page[i]);
    }
  }

  lemma GatedNext(nodes: Nodes, ids: set<Id>, i: Id, floor: real)
    requires i !in ids
    ensures |GatedAmong(nodes, ids + {i}, floor)| == |GatedAmong(nodes, ids, floor)| +
      if i in nodes && GatedOut(nodes[i], floor) then 1 else 0
  {
    assert GatedAmong(nodes, ids + {i}, floor) == GatedAmong(nodes, ids, floor) +
      if i in nodes && GatedOut(nodes[i], floor) then {i} else {};
  }

  lemma RunStarts(nodes: Nodes, batch: nat, ks: nat -> Knobs, quiet: bool)
    requires batch >= 1
    ensures Underway(nodes, nodes, None, false, batch, ks, 0, [], quiet)
  {
    assert Beyond(Exported(nodes), None) == Exported(nodes);
  }

  /** One node across one page: settled by this call when it is on the page. */
  lemma NodeAcross(was: Node, mid: Node, now: Node, ks: nat -> Knobs, calls: nat, onPage: bool)
    requires if onPage then mid == was else mid == was || RevokedBy(was, mid, ks, calls)
    requires now == if onPage && GatedOut(mid, ks(calls).floor) then Revoked(mid, ks(calls).now) else mid
    ensures now == was || RevokedBy(was, now, ks, calls + 1)
    ensures onPage || Settled(was, mid, ks, calls) ==> Settled(was, now, ks, calls + 1)
  {
    if onPage {
      assert GatedOut(was, ks(calls).floor) || !GatedOut(was, ks(calls).floor);
    }
  }

  lemma RevokedIsNotExported(was: Node, n: Node, ks: nat -> Knobs, calls: nat)
    requires RevokedBy(was, n, ks, calls)
    ensures !n.exported && n.exportable == was.exportable
  {
  }

  /** Only nodes exported at the start are exported later, and those are as they were. */
  lemma StillExported(before: Nodes, nodes: Nodes, cursor: Option<Id>, done: bool, ks: nat -> Knobs, calls: nat)
    requires Running(before, nodes, cursor, done, ks, calls)
    ensures forall i :: i in Exported(nodes) ==> i in Exported(before) && nodes[i] == before[i]
  {
    forall i | i in nodes && nodes[i] != before[i] ensures !nodes[i].exported {
      RevokedIsNotExported(before[i], nodes[i], ks, calls);
    }
  }

  /** One page keeps the run's invariant, whether its response arrives or is lost. */
  lemma PageRevokes(before: Nodes, was: Nodes, cursor: Option<Id>, batch: nat, ks: nat -> Knobs, calls: nat)
    requires batch >= 1 && Running(before, was, cursor, false, ks, calls)
    ensures
      var page := Page(Exported(was), cursor, batch);
      var nodes := RevokedAmong(was, Elements(page), ks(calls).floor, ks(calls).now);
      && Running(before, nodes, cursor, false, ks, calls + 1)
      && Running(before, nodes, LastOf(page), page == [], ks, calls + 1)
  {
    var page := Page(Exported(was), cursor, batch);
    var nodes := RevokedAmong(was, Elements(page), ks(calls).floor, ks(calls).now);
    StillExported(before, was, cursor, false, ks, calls);
    PageSplits(Exported(was), cursor, batch);
    assert Elements(page) <= Exported(was);
    forall i | i in before
      ensures nodes[i] != before[i] ==> i in Exported(before) && RevokedBy(before[i], nodes[i], ks, calls + 1)
      ensures i in Elements(page) || Settled(before[i], was[i], ks, calls) ==>
        Settled(before[i], nodes[i], ks, calls + 1)
    {
      NodeAcross(before[i], was[i], nodes[i], ks, calls, i in Elements(page));
    }
    forall i | i in Exported(before) && (page == [] || i !in Beyond(Exported(before), LastOf(page)))
      ensures Settled(before[i], was[i], ks, calls) || i in Elements(page)
    {
      PastPage(before, was, cursor, ks, calls, page, i);
    }
  }

  /** And leaves strictly less to scan. */
  lemma PageShrinksScan(was: Nodes, cursor: Option<Id>, batch: nat, floor: real, now: Instant)
    requires batch >= 1
    ensures
      var page := Page(Exported(was), cursor, batch);
      Todo(RevokedAmong(was, Elements(page), floor, now), LastOf(page), page == []) < Todo(was, cursor, false)
  {
    var page := Page(Exported(was), cursor, batch);
    PageSplits(Exported(was), cursor, batch);
    if page != [] {
      FewerBeyond(was, RevokedAmong(was, Elements(page), floor, now), cursor, page);
    }
  }

  /** One call of a run. */
  lemma CallAdvances(before: Nodes, was: Nodes, cursor: Option<Id>, batch: nat, ks: nat -> Knobs, calls: nat,
                     visited: seq<Id>, quiet: bool, lost: bool)
    requires batch >= 1 && Underway(before, was, cursor, false, batch, ks, calls, visited, quiet)
    requires quiet ==> !lost
    ensures
      var page := Page(Exported(was), cursor, batch);
      var nodes := RevokedAmong(was, Elements(page), ks(calls).floor, ks(calls).now);
      var next, done := if lost then cursor else LastOf(page), !lost && page == [];
      && Underway(before, nodes, next, done, batch, ks, calls + 1, visited + page, quiet)
      && (!lost ==> Todo(nodes, next, done) < Todo(was, cursor, false))
  {
    PageRevokes(before, was, cursor, batch, ks, calls);
    PageShrinksScan(was, cursor, batch, ks(calls).floor, ks(calls).now);
    if quiet {
      SteadyAdvances(before, was, cursor, batch, ks(calls).floor, ks(calls).now, visited);
      CountAdvances(before, was, cursor, batch, calls, visited);
    }
  }

  lemma CountAdvances(before: Nodes, was: Nodes, cursor: Option<Id>, batch: nat, calls: nat, visited: seq<Id>)
    requires batch >= 1 && Steady(before, was, cursor, false, visited) && Counting(before, cursor, false, batch, calls)
    ensures
      var page := Page(Exported(was), cursor, batch);
      Counting(before, LastOf(page), page == [], batch, calls + 1)
  {
    var page := Page(Exported(was), cursor, batch);
    assert page == Page(Exported(before), cursor, batch);
    if page == [] {
      ScanEnds(Exported(before), cursor, batch);
    } else {
      ScanAdvances(Exported(before), cursor, batch);
    }
  }

  /** An exported node the cursor has passed was settled earlier or is on the page. */
  lemma PastPage(before: Nodes, was: Nodes, cursor: Option<Id>, ks: nat -> Knobs, calls: nat, page: seq<Id>, i: Id)
    requires Running(before, was, cursor, false, ks, calls) && i in Exported(before)
    requires page == [] <==> Beyond(Exported(was), cursor) == {}
    requires page != [] ==> Beyond(Exported(was), LastOf(page)) == Beyond(Exported(was), cursor) - Elements(page)
    requires page == [] || i !in Beyond(Exported(before), LastOf(page))
    ensures Settled(before[i], was[i], ks, calls) || i in Elements(page)
  {
    if was[i] == before[i] && i in Beyond(Exported(before), cursor) {
      assert i in Beyond(Exported(was), cursor) && page != [];
      assert i in Beyond(Exported(was), LastOf(page)) ==> i in Beyond(Exported(before), LastOf(page));
    }
  }

  lemma FewerBeyond(was: Nodes, nodes: Nodes, cursor: Option<Id>, page: seq<Id>)
    requires page != [] && Elements(page) <= Beyond(Exported(was), cursor)
    requires Beyond(Exported(was), LastOf(page)) == Beyond(Exported(was), cursor) - Elements(page)
    requires Exported(nodes) <= Exported(was)
    ensures |Beyond(Exported(nodes), LastOf(page))| < |Beyond(Exported(was), cursor)|
  {
    var a, b := Beyond(Exported(nodes), LastOf(page)), Beyond(Exported(was), cursor);
    assert a <= Beyond(Exported(was), LastOf(page));
    assert page[0] in Elements(page);
    assert page[0] in b && page[0] !in a;
    SmallerSet(a, b, page[0]);
  }

  lemma SmallerSet(a: set<Id>, b: set<Id>, x: Id)
    requires a <= b && x in b && x !in a
    ensures |a| < |b|
  {
    assert b == a + (b - a);
    assert x in b - a;
  }

  lemma SteadyAdvances(before: Nodes, was: Nodes, cursor: Option<Id>, batch: nat, floor: real, now: Instant,
                       visited: seq<Id>)
    requires batch >= 1 && Steady(before, was, cursor, false, visited)
    ensures
      var page := Page(Exported(was), cursor, batch);
      var nodes := RevokedAmong(was, Elements(page), floor, now);
      Steady(before, nodes, LastOf(page), page == [], visited + page)
  {
    var page := Page(Exported(was), cursor, batch);
    assert page == Page(Exported(before), cursor, batch);
    PageSplits(Exported(before), cursor, batch);
    if page == [] {
      assert visited + page == visited;
    } else {
      SteadyPage(before, was, cursor, page, floor, now, visited);
    }
  }

  lemma SteadyPage(before: Nodes, was: Nodes, cursor: Option<Id>, page: seq<Id>, floor: real, now: Instant,
                   visited: seq<Id>)
    requires Steady(before, was, cursor, false, visited)
    requires page != [] && Increasing(page) && Elements(page) <= Beyond(Exported(before), cursor)
    requires Beyond(Exported(before), LastOf(page)) == Beyond(Exported(before), cursor) - Elements(page)
    ensures Steady(before, RevokedAmong(was, Elements(page), floor, now), LastOf(page), false, visited + page)
  {
    var left := Beyond(Exported(before), cursor);
    VisitedIncreases(cursor, visited, page, left);
    assert Elements(visited + page) == Elements(visited) + Elements(page);
    VisitedGrows(Exported(before), left, Elements(visited), Elements(page));
    ScanUnchangedBeyond(before, was, cursor, page, floor, now);
  }

  lemma VisitedGrows(all: set<Id>, left: set<Id>, visited: set<Id>, page: set<Id>)
    requires page <= left && left <= all && visited == all - left
    ensures visited + page == all - (left - page)
  {
  }

  /** Revoking within the page leaves the scan beyond the page as it was. */
  lemma ScanUnchangedBeyond(before: Nodes, was: Nodes, cursor: Option<Id>, page: seq<Id>, floor: real, now: Instant)
    requires page != [] && Beyond(Exported(was), cursor) == Beyond(Exported(before), cursor)
    requires Beyond(Exported(before), LastOf(page)) == Beyond(Exported(before), cursor) - Elements(page)
    requires Elements(page) <= Beyond(Exported(before), cursor)
    ensures Beyond(Exported(RevokedAmong(was, Elements(page), floor, now)), LastOf(page))
      == Beyond(Exported(before), LastOf(page))
  {
    var nodes := RevokedAmong(was, Elements(page), floor, now);
    var last := page[|page| - 1];
    assert last in Elements(page);
    LastStaysBeyond(Exported(before), cursor, last);
    LastStaysBeyond(Exported(was), cursor, last);
    forall i | i in Beyond(Exported(before), LastOf(page)) ensures i in Beyond(Exported(nodes), LastOf(page)) {
      assert i in Beyond(Exported(was), cursor) && i !in Elements(page);
    }
    assert Exported(nodes) <= Exported(was);
  }

  /** Ids beyond a cursor continue a list that ends at it. */
  lemma VisitedIncreases(cursor: Option<Id>, visited: seq<Id>, page: seq<Id>, left: set<Id>)
    requires Increasing(visited) && Increasing(page) && Elements(page) <= left
    requires forall i :: i in left ==> cursor.None? || Lt(cursor.value, i)
    requires if cursor.None? then visited == [] else forall v :: v in visited ==> Le(v, cursor.value)
    ensures Increasing(visited + page)
    ensures page != [] ==> forall v :: v in visited + page ==> Le(v, page[|page| - 1])
  {
    StrictTotalOrder();
    forall i, j | 0 <= i < |visited| && 0 <= j < |page| ensures Lt(visited[i], page[j]) {
      assert visited[i] in visited && page[j] in Elements(page);
    }
    if page != [] {
      forall v | v in visited + page ensures Le(v, page[|page| - 1]) {
        if v in page {
          var j :| 0 <= j < |page| && page[j] == v;
        } else {
          var i :| 0 <= i < |visited| && visited[i] == v;
        }
      }
    }
  }

  lemma SteadyEnds(before: Nodes, nodes: Nodes, cursor: Option<Id>, visited: seq<Id>)
    requires Steady(before, nodes, cursor, true, visited)
    ensures visited == Sorted(Exported(before))
  {
    assert Exported(before) - {} == Exported(before);
    assert forall x :: x in visited <==> x in Elements(visited);
    SortedUnique(visited, Exported(before));
  }

  lemma RunEnds(before: Nodes, nodes: Nodes, cursor: Option<Id>, batch: nat, ks: nat -> Knobs, calls: nat,
                visited: seq<Id>, quiet: bool)
    requires batch >= 1 && Underway(before, nodes, cursor, true, batch, ks, calls, visited, quiet)
    ensures WithdrawnBy(before, nodes, ks, calls)
    ensures quiet ==> visited == Sorted(Exported(before)) && calls == Pages(|Exported(before)|, batch) + 1
  {
    if quiet {
      SteadyEnds(before, nodes, cursor, visited);
    }
  }

  // ---- What the floors decide ----

  lemma GateRises(n: Node, floor: real, higher: real)
    requires floor <= higher
    ensures GatedOut(n, floor) ==> GatedOut(n, higher)
  {
  }

  /** With every call's floor between two values, an exported node gated out at the lower one
      ends revoked, so none is left both exported and gated out at it, and a node that passes
      at the higher one is untouched. */
  lemma FloorsDecide(before: Nodes, after: Nodes, ks: nat -> Knobs, calls: nat, low: real, high: real)
    requires WithdrawnBy(before, after, ks, calls)
    requires forall k: nat :: k < calls ==> low <= ks(k).floor <= high
    ensures forall i :: i in Exported(before) && GatedOut(before[i], low) ==>
      RevokedBy(before[i], after[i], ks, calls) && i !in Exported(after)
    ensures forall i :: i in Exported(after) ==> !GatedOut(after[i], low)
    ensures forall i :: i in before && !(i in Exported(before) && GatedOut(before[i], high)) ==> after[i] == before[i]
  {
    forall i | i in Exported(before)
      ensures GatedOut(before[i], low) ==> RevokedBy(before[i], after[i], ks, calls)
      ensures !GatedOut(before[i], high) ==> after[i] == before[i]
      ensures RevokedBy(before[i], after[i], ks, calls) ==> i !in Exported(after)
    {
      if RevokedBy(before[i], after[i], ks, calls) {
        RevokedIsNotExported(before[i], after[i], ks, calls);
        var k: nat :| k < calls && GatedOut(before[i], ks(k).floor) && after[i] == Revoked(before[i], ks(k).now);
        GateRises(before[i], ks(k).floor, high);
      } else {
        var k: nat :| k < calls && !GatedOut(before[i], ks(k).floor);
        GateRises(before[i], low, ks(k).floor);
      }
    }
  }

  /** What a revoked node looks like: marked, stamped, out of every later scan, and otherwise as
      it was. */
  predicate Withdrawn(was: Node, n: Node, at: Instant) {
    && n.revoked && !n.exported && n.lastUpdated == at
    && n.exportable == was.exportable && n.confidence == was.confidence && n.pruneCandidate == was.pruneCandidate
  }

  /** With one floor throughout, what is still served is exactly what was served, is no prune
      candidate and has the confidence, none counting as zero; the rest of what was served is
      withdrawn with the clock of one of the calls, and what was not served is as it was. */
  lemma ServedAfterwards(before: Nodes, after: Nodes, ks: nat -> Knobs, calls: nat, floor: real)
    requires WithdrawnBy(before, after, ks, calls) && forall k: nat :: k < calls ==> ks(k).floor == floor
    ensures forall i :: i in before && !(before[i].exportable && before[i].exported) ==> after[i] == before[i]
    ensures forall i :: i in before && before[i].exportable && before[i].exported ==>
      if before[i].pruneCandidate != Some(true) &&
         (match before[i].confidence case Some(c) => floor <= c case None => floor <= 0.0)
      then after[i] == before[i]
      else exists k: nat :: k < calls && Withdrawn(before[i], after[i], ks(k).now)
  {
    forall i | i in Exported(before)
      ensures
        if before[i].pruneCandidate != Some(true) &&
           (match before[i].confidence case Some(c) => floor <= c case None => floor <= 0.0)
        then after[i] == before[i]
        else exists k: nat :: k < calls && Withdrawn(before[i], after[i], ks(k).now)
    {
      if RevokedBy(before[i], after[i], ks, calls) {
        var k: nat :| k < calls && GatedOut(before[i], ks(k).floor) && after[i] == Revoked(before[i], ks(k).now);
        assert Withdrawn(before[i], after[i], ks(k).now);
      } else {
        var k: nat :| k < calls && !GatedOut(before[i], ks(k).floor);
      }
    }
    forall i | i in before && !(before[i].exportable && before[i].exported) ensures after[i] == before[i] {
      assert i !in Exported(before);
    }
  }
}
