/** The Asset-to-CVE reconciliation: one page of the sweep, the event-path matcher, and the
    sweep driven from the empty cursor until it reports done. */
module AssetSweep {
  import opened Options
  import opened Ordering
  import opened Versions
  import opened Paging

  datatype Asset = Asset(vendor: Option<string>, product: Option<string>, version: string)

  function LowerChar(c: char): char {
    if 'A' <= c <= 'Z' then ((c as int) + 32) as char else c
  }

  /** `(value or "").lower()`, over ASCII. */
  function Folded(value: Option<string>): string {
    var s := value.GetOr("");
    seq(|s|, i requires 0 <= i < |s| => LowerChar(s[i]))
  }

  /** `u` is a capital letter and `l` the same letter small. */
  predicate CaseOf(u: char, l: char) {
    'A' <= u <= 'Z' && 'a' <= l <= 'z' && u as int - 'A' as int == l as int - 'a' as int
  }

  predicate SameLetter(c: char, d: char) {
    c == d || CaseOf(c, d) || CaseOf(d, c)
  }

  /** Two spellings that differ in the case of letters only. */
  predicate SameButForCase(s: string, t: string) {
    |s| == |t| && forall i :: 0 <= i < |s| ==> SameLetter(s[i], t[i])
  }

  /** Folding makes spellings equal exactly when they differ in nothing but case, leaves no
      capital letter and changes nothing but case; no value folds as the empty one does. */
  lemma FoldingForgetsCase(s: string, t: string)
    ensures Folded(Some(s)) == Folded(Some(t)) <==> SameButForCase(s, t)
    ensures SameButForCase(s, Folded(Some(s))) && forall c :: c in Folded(Some(s)) ==> !('A' <= c <= 'Z')
    ensures Folded(None) == ""
  {
    var f, g := Folded(Some(s)), Folded(Some(t));
    assert |f| == |s| && |g| == |t|;
    assert f == g <==> |s| == |t| && forall i :: 0 <= i < |s| ==> f[i] == g[i];
    forall i | 0 <= i < |s| && |s| == |t| ensures f[i] == g[i] <==> SameLetter(s[i], t[i]) {
    }
  }

  /** A CVE id with the id of one CPEMatch record it has a MATCHES edge to. */
  type Link = (Id, Id)

  /** A CVE id with an asset key: the ends of one AFFECTS edge. */
  type Pair = (Id, Id)

  datatype Inventory = Inventory(
    assets: map<Id, Asset>,
    cves: set<Id>,
    criteria: map<Id, CpeMatch>,
    matches: set<Link>)

  /** Link `l` says its CVE affects asset `a`. */
  predicate Justifies(inv: Inventory, l: Link, a: Id) {
    && l in inv.matches && l.0 in inv.cves && l.1 in inv.criteria && a in inv.assets
    && inv.criteria[l.1].vendor == Folded(inv.assets[a].vendor)
    && inv.criteria[l.1].product == Folded(inv.assets[a].product)
    && VersionSatisfies(inv.assets[a].version, inv.criteria[l.1])
  }

  /** The MATCHES links to records for an asset's vendor and product. */
  function Candidates(inv: Inventory, asset: Asset): set<Link> {
    set l | l in inv.matches && l.0 in inv.cves && l.1 in inv.criteria &&
      inv.criteria[l.1].vendor == Folded(asset.vendor) && inv.criteria[l.1].product == Folded(asset.product)
  }

  /** The AFFECTS edges the assets `ids` should have. */
  function Justified(inv: Inventory, ids: set<Id>): set<Pair> {
    set l, a | l in inv.matches && a in ids && Justifies(inv, l, a) :: (l.0, a)
  }

  function Onto(pairs: set<Pair>, ids: set<Id>): set<Pair> {
    set p | p in pairs && p.1 in ids
  }

  datatype Row = Row(cve: Id, asset: Id, criteriaId: Id)

  function RowPairs(rows: seq<Row>): set<Pair> {
    set r | r in rows :: (r.cve, r.asset)
  }

  /** No pair twice. */
  predicate DistinctPairs(rows: seq<Row>) {
    forall i, j :: 0 <= i < j < |rows| ==> (rows[i].cve, rows[i].asset) != (rows[j].cve, rows[j].asset)
  }

  predicate RowJustified(inv: Inventory, r: Row) {
    Justifies(inv, (r.cve, r.criteriaId), r.asset)
  }

  /** The rows whose CVE and asset both exist: the others find no MATCH. */
  function Present(inv: Inventory, rows: seq<Row>): seq<Row> {
    if rows == [] then []
    else
      var last := rows[|rows| - 1];
      Present(inv, rows[..|rows| - 1]) + if last.cve in inv.cves && last.asset in inv.assets then [last] else []
  }

  /** How many of the rows name an edge, repeats included. */
  function Hits(edges: set<Pair>, rows: seq<Pair>): nat {
    if rows == [] then 0
    else Hits(edges, rows[..|rows| - 1]) + if rows[|rows| - 1] in edges then 1 else 0
  }

  datatype PageResult = PageResult(cursor: Id, done: bool, count: nat, written: nat, retracted: nat)

  /** What a page reports: the next cursor only after a full page. */
  function Report(inv: Inventory, was: set<Pair>, page: seq<Id>, batch: nat): PageResult
    requires batch >= 1
  {
    var ids := Elements(page);
    PageResult(if |page| == batch then page[batch - 1] else "", |page| != batch, |page|,
               |Justified(inv, ids)|, |Onto(was, ids) - Justified(inv, ids)|)
  }

  /** An empty cursor string means no cursor. */
  function Decode(cursor: Id): Option<Id> {
    if cursor == "" then None else Some(cursor)
  }

  predicate OnAssets(edges: map<Pair, Id>, ids: set<Id>) {
    forall p :: p in edges ==> p.1 in ids
  }

  /** Every `matched_via` names a record that justifies its edge. */
  ghost predicate ViaJustified(inv: Inventory, edges: map<Pair, Id>) {
    forall p :: p in edges ==> Justifies(inv, (p.0, edges[p]), p.1)
  }

  lemma ReconciledOnAssets(inv: Inventory, was: map<Pair, Id>, ids: set<Id>, now: map<Pair, Id>)
    requires OnAssets(was, inv.assets.Keys) && ids <= inv.assets.Keys && Reconciled(inv, was, ids, now)
    ensures OnAssets(now, inv.assets.Keys)
  {
    JustifiedOnto(inv, ids);
  }

  /** The assets `ids` have exactly their justified edges, each naming a record that justifies
      it; edges onto other assets are as they were. */
  ghost predicate Reconciled(inv: Inventory, was: map<Pair, Id>, ids: set<Id>, now: map<Pair, Id>) {
    && now.Keys == (was.Keys - Onto(was.Keys, ids)) + Justified(inv, ids)
    && (forall p :: p in was && p.1 !in ids ==> p in now && now[p] == was[p])
    && (forall p :: p in now && p.1 in ids ==> Justifies(inv, (p.0, now[p]), p.1))
  }

  lemma WrittenThenDeleted(inv: Inventory, was: map<Pair, Id>, ids: set<Id>, mid: map<Pair, Id>, now: map<Pair, Id>)
    requires mid.Keys == was.Keys + Justified(inv, ids)
    requires forall p :: p in was && p !in Justified(inv, ids) ==> mid[p] == was[p]
    requires forall p :: p in Justified(inv, ids) ==> Justifies(inv, (p.0, mid[p]), p.1)
    requires now == mid - (Onto(was.Keys, ids) - Justified(inv, ids))
    ensures Reconciled(inv, was, ids, now)
  {
    JustifiedOnto(inv, ids);
  }

  lemma NothingToReconcile(inv: Inventory, now: map<Pair, Id>)
    ensures Reconciled(inv, now, {}, now)
    ensures Justified(inv, {}) == {} && Onto(now.Keys, {}) == {}
  {
  }

  class AssetGraph {
    const inv: Inventory

    /** AFFECTS edges with the `matched_via` each carries. */
    var affects: map<Pair, Id>

    constructor (inv: Inventory, affects: map<Pair, Id>)
      ensures this.inv == inv && this.affects == affects
    {
      this.inv, this.affects := inv, affects;
    }

    /** Keys are never empty, and an edge needs its asset. */
    predicate Valid()
      reads this
    {
      "" !in inv.assets && OnAssets(affects, inv.assets.Keys)
    }

    /** `_wanted_rows`, with each asset's candidates met in any order. Two records can justify
        one edge; it is written once. */
    method WantedRows(page: seq<Id>) returns (wanted: seq<Row>)
      requires forall k :: k in page ==> k in inv.assets
      ensures RowPairs(wanted) == Justified(inv, Elements(page))
      ensures DistinctPairs(wanted)
      ensures forall r :: r in wanted ==> RowJustified(inv, r)
    {
      wanted := [];
      var seen: set<Pair> := {};
      for i := 0 to |page|
        invariant seen == RowPairs(wanted) == Justified(inv, Elements(page[..i]))
        invariant DistinctPairs(wanted)
        invariant forall r :: r in wanted ==> RowJustified(inv, r)
      {
        var key := page[i];
        var asset := inv.assets[key];
        var candidates := Candidates(inv, asset);
        ghost var before := seen;
        var rest := candidates;
        while rest != {}
          invariant rest <= candidates
          invariant seen == RowPairs(wanted)
          invariant seen == before + JustifiedBy(inv, candidates - rest, key)
          invariant DistinctPairs(wanted)
          invariant forall r :: r in wanted ==> RowJustified(inv, r)
          decreases rest
        {
          var l :| l in rest;
          OneMore(inv, candidates, rest, l, key);
          rest := rest - {l};
          if VersionSatisfies(asset.version, inv.criteria[l.1]) {
            if (l.0, key) !in seen {
              RowPairsAppend(wanted, Row(l.0, key, l.1));
              seen := seen + {(l.0, key)};
              wanted := wanted + [Row(l.0, key, l.1)];
            }
          }
        }
        JustifiedGrows(inv, page, i, candidates);
      }
      assert page[..|page|] == page;
    }

    /** `match_asset`, the event path for one asset: it adds every justified edge and removes
        none, and returns one criteria id for each record that justified one. */
    method MatchAsset(key: Id) returns (hits: seq<Id>)
      requires key in inv.assets
      modifies `affects
      ensures affects.Keys == old(affects).Keys + Justified(inv, {key})
      ensures forall p :: p in old(affects) && p !in Justified(inv, {key}) ==> affects[p] == old(affects)[p]
      ensures forall p :: p in Justified(inv, {key}) ==> Justifies(inv, (p.0, affects[p]), key)
      ensures Elements(hits) == JustifyingRecords(inv, inv.matches, key)
    {
      var asset := inv.assets[key];
      var candidates := Candidates(inv, asset);
      hits := [];
      ghost var before := affects.Keys;
      var rest := candidates;
      while rest != {}
        invariant rest <= candidates
        invariant affects.Keys == before + JustifiedBy(inv, candidates - rest, key)
        invariant forall p :: p in old(affects) && p !in JustifiedBy(inv, candidates - rest, key) ==>
          affects[p] == old(affects)[p]
        invariant forall p :: p in JustifiedBy(inv, candidates - rest, key) ==> Justifies(inv, (p.0, affects[p]), key)
        invariant Elements(hits) == JustifyingRecords(inv, candidates - rest, key)
        decreases rest
      {
        var l :| l in rest;
        OneMore(inv, candidates, rest, l, key);
        rest := rest - {l};
        if VersionSatisfies(asset.version, inv.criteria[l.1]) {
          affects := affects[(l.0, key) := l.1];
          ElementsAppend(hits, l.1);
          hits := hits + [l.1];
        }
      }
      assert candidates - {} == candidates;
      CandidatesSuffice(inv, candidates, key);
    }

    /** One UNWIND round trip. Rows naming a CVE or an asset that does not exist are dropped. */
    method WriteAffectsBulk(rows: seq<Row>) returns (n: nat)
      modifies `affects
      ensures n == |Present(inv, rows)|
      ensures WroteRows(old(affects), Present(inv, rows), affects)
    {
      n := 0;
      for i := 0 to |rows|
        invariant n == |Present(inv, rows[..i])|
        invariant WroteRows(old(affects), Present(inv, rows[..i]), affects)
      {
        var row := rows[i];
        PresentGrows(inv, rows, i);
        if row.cve in inv.cves && row.asset in inv.assets {
          WroteOneMore(old(affects), Present(inv, rows[..i]), affects, row);
          affects := affects[(row.cve, row.asset) := row.criteriaId];
          n := n + 1;
        }
      }
      assert rows[..|rows|] == rows;
    }

    /** Another. Every row is matched before any edge is deleted, so a repeated row counts
        twice; a row without an edge counts for nothing. */
    method DeleteAffectsBulk(rows: seq<Pair>) returns (n: nat)
      modifies `affects
      ensures n == Hits(old(affects).Keys, rows)
      ensures affects == old(affects) - Elements(rows)
    {
      n := 0;
      for i := 0 to |rows|
        invariant affects == old(affects) && n == Hits(affects.Keys, rows[..i])
      {
        assert rows[..i + 1][..i] == rows[..i];
        n := n + if rows[i] in affects then 1 else 0;
      }
      assert rows[..|rows|] == rows;
      affects := map p | p in affects && p !in rows :: affects[p];
    }

    /** The edges now pointing at an asset of the page that the recomputed matches do not
        justify, as a list in any order. */
    method Stale(page: seq<Id>, wanted: seq<Row>) returns (stale: seq<Pair>)
      ensures Distinct(stale)
      ensures Elements(stale) == Onto(affects.Keys, Elements(page)) - RowPairs(wanted)
    {
      var all := Onto(affects.Keys, Elements(page)) - RowPairs(wanted);
      stale := [];
      var rest := all;
      while rest != {}
        invariant rest <= all && Elements(stale) == all - rest && Distinct(stale)
        decreases rest
      {
        var p :| p in rest;
        rest := rest - {p};
        ElementsAppend(stale, p);
        stale := stale + [p];
      }
    }

    method WriteChunks(rows: seq<Row>, size: nat) returns (written: nat)
      requires size >= 1 && forall r :: r in rows ==> RowJustified(inv, r)
      modifies `affects
      ensures written == |rows|
      ensures affects.Keys == old(affects).Keys + RowPairs(rows)
      ensures forall p :: p in old(affects) && p !in RowPairs(rows) ==> affects[p] == old(affects)[p]
      ensures forall p :: p in RowPairs(rows) ==> Justifies(inv, (p.0, affects[p]), p.1)
    {
      written := 0;
      var i := 0;
      while i < |rows|
        invariant 0 <= i <= |rows| && written == i
        invariant affects.Keys == old(affects).Keys + RowPairs(rows[..i])
        invariant forall p :: p in old(affects) && p !in RowPairs(rows[..i]) ==> affects[p] == old(affects)[p]
        invariant forall p :: p in RowPairs(rows[..i]) ==> Justifies(inv, (p.0, affects[p]), p.1)
      {
        var next := if i + size < |rows| then i + size else |rows|;
        RowPairsConcat(rows, i, next);
        JustifiedPresent(inv, rows[i..next]);
        var n := WriteAffectsBulk(rows[i..next]);
        written := written + n;
        i := next;
      }
      assert rows[..|rows|] == rows;
    }

    method DeleteChunks(rows: seq<Pair>, size: nat) returns (retracted: nat)
      requires size >= 1 && Distinct(rows) && forall p :: p in rows ==> p in affects
      modifies `affects
      ensures retracted == |rows|
      ensures affects == old(affects) - Elements(rows)
    {
      retracted := 0;
      var i := 0;
      while i < |rows|
        invariant 0 <= i <= |rows| && retracted == i
        invariant affects == old(affects) - Elements(rows[..i])
      {
        var next := if i + size < |rows| then i + size else |rows|;
        DistinctChunk(rows, i, next);
        AllHit(affects.Keys, rows[i..next]);
        var n := DeleteAffectsBulk(rows[i..next]);
        retracted := retracted + n;
        i := next;
      }
      assert rows[..|rows|] == rows;
    }

    /** The body of one page: write the wanted edges, then delete the stale ones. */
    method Reconcile(page: seq<Id>, edgeBatch: nat) returns (written: nat, retracted: nat)
      requires edgeBatch >= 1 && Elements(page) <= inv.assets.Keys
      modifies `affects
      ensures Reconciled(inv, old(affects), Elements(page), affects)
      ensures written == |Justified(inv, Elements(page))|
      ensures retracted == |Onto(old(affects).Keys, Elements(page)) - Justified(inv, Elements(page))|
    {
      ghost var ids := Elements(page);
      assert forall k :: k in page ==> k in ids;
      JustifiedOnto(inv, ids);
      var wanted := WantedRows(page);
      var stale := Stale(page, wanted);
      RowCount(wanted);
      ElementsCount(stale);
      assert forall p :: p in stale ==> p in Elements(stale);
      ghost var was := affects;
      written := WriteChunks(wanted, edgeBatch);
      ghost var mid := affects;
      retracted := DeleteChunks(stale, edgeBatch);
      WrittenThenDeleted(inv, was, ids, mid, affects);
    }

    /** One invocation of the handler. */
    method SweepPage(cursor: Id, batch: nat, edgeBatch: nat) returns (r: PageResult)
      requires Valid() && batch >= 1 && edgeBatch >= 1
      modifies `affects
      ensures Valid()
      ensures Reconciled(inv, old(affects), Elements(Page(inv.assets.Keys, Decode(cursor), batch)), affects)
      ensures r == Report(inv, old(affects).Keys, Page(inv.assets.Keys, Decode(cursor), batch), batch)
    {
      var page := Page(inv.assets.Keys, Decode(cursor), batch);
      PageOnAssets(inv, cursor, batch);
      var written, retracted := ReconcileAny(page, edgeBatch);
      var more := |page| == batch;
      r := PageResult(if more then page[|page| - 1] else "", !more, |page|, written, retracted);
    }

    /** An empty page does no work. */
    method ReconcileAny(page: seq<Id>, edgeBatch: nat) returns (written: nat, retracted: nat)
      requires Valid() && edgeBatch >= 1 && Elements(page) <= inv.assets.Keys
      modifies `affects
      ensures Valid()
      ensures Reconciled(inv, old(affects), Elements(page), affects)
      ensures written == |Justified(inv, Elements(page))|
      ensures retracted == |Onto(old(affects).Keys, Elements(page)) - Justified(inv, Elements(page))|
    {
      ghost var was := affects;
      written, retracted := 0, 0;
      if page != [] {
        written, retracted := Reconcile(page, edgeBatch);
      } else {
        NothingToReconcile(inv, affects);
      }
      ReconciledOnAssets(inv, was, Elements(page), affects);
    }

    /** Driven until done from the empty cursor, for any page and batch sizes of at least one,
        the sweep leaves exactly the justified edges and retracts exactly the others. */
    method Sweep(batch: nat, edgeBatch: nat) returns (retracted: nat, calls: nat)
      requires Valid() && batch >= 1 && edgeBatch >= 1
      modifies `affects
      ensures Valid()
      ensures affects.Keys == Justified(inv, inv.assets.Keys)
      ensures ViaJustified(inv, affects)
      ensures retracted == |old(affects).Keys - Justified(inv, inv.assets.Keys)|
      ensures calls == |inv.assets| / batch + 1
    {
      ghost var before := affects;
      SweepStarts(inv, before, batch);
      retracted, calls := SweepPages(batch, edgeBatch, before);
      SweepEnds(inv, before, affects, retracted);
    }

    /** The loop over pages. */
    method SweepPages(batch: nat, edgeBatch: nat, ghost before: map<Pair, Id>) returns (retracted: nat, calls: nat)
      requires Valid() && batch >= 1 && edgeBatch >= 1
      requires Running(inv, before, batch, "", false, affects, 0, 0)
      modifies `affects
      ensures Valid()
      ensures Running(inv, before, batch, "", true, affects, retracted, calls)
    {
      var cursor, done := "", false;
      retracted, calls := 0, 0;
      while !done
        invariant Valid()
        invariant Running(inv, before, batch, cursor, done, affects, retracted, calls)
        decreases Todo(inv, cursor, done)
      {
        ghost var was := affects;
        var r := SweepPage(cursor, batch, edgeBatch);
        RunAdvances(inv, before, batch, cursor, was, retracted, calls, affects, r);
        cursor, done := r.cursor, r.done;
        retracted, calls := retracted + r.retracted, calls + 1;
      }
    }

    /** A second sweep, whatever its sizes, keeps the set of edges and retracts none. */
    method SweepTwice(batch: nat, edgeBatch: nat, batch2: nat, edgeBatch2: nat) returns (retracted: nat, again: nat)
      requires Valid() && batch >= 1 && edgeBatch >= 1 && batch2 >= 1 && edgeBatch2 >= 1
      modifies `affects
      ensures affects.Keys == Justified(inv, inv.assets.Keys) && again == 0
    {
      var calls;
      retracted, calls := Sweep(batch, edgeBatch);
      ghost var first := affects.Keys;
      again, calls := Sweep(batch2, edgeBatch2);
      assert first - Justified(inv, inv.assets.Keys) == {};
    }
  }

  lemma PageOnAssets(inv: Inventory, cursor: Id, batch: nat)
    requires batch >= 1
    ensures Elements(Page(inv.assets.Keys, Decode(cursor), batch)) <= inv.assets.Keys
  {
    PageInside(inv.assets.Keys, Decode(cursor), batch);
  }

  /** The state of a run between two pages. */
  ghost predicate Running(inv: Inventory, before: map<Pair, Id>, batch: nat, cursor: Id, done: bool,
                          now: map<Pair, Id>, retracted: nat, calls: nat)
    requires batch >= 1
  {
    var ids := inv.assets.Keys;
    var left := if done then {} else Beyond(ids, Decode(cursor));
    && SweptBut(inv, before, ids, left, now, retracted)
    && if done then calls == |ids| / batch + 1 else FullPages(|ids|, |left|, calls, batch)
  }

  /** One more than the assets a run has still to visit. */
  function Todo(inv: Inventory, cursor: Id, done: bool): nat {
    if done then 0 else 1 + |Beyond(inv.assets.Keys, Decode(cursor))|
  }

  lemma RunAdvances(inv: Inventory, before: map<Pair, Id>, batch: nat, cursor: Id,
                    was: map<Pair, Id>, retracted: nat, calls: nat, now: map<Pair, Id>, r: PageResult)
    requires batch >= 1 && "" !in inv.assets
    requires Running(inv, before, batch, cursor, false, was, retracted, calls)
    requires Reconciled(inv, was, Elements(Page(inv.assets.Keys, Decode(cursor), batch)), now)
    requires r == Report(inv, was.Keys, Page(inv.assets.Keys, Decode(cursor), batch), batch)
    ensures Running(inv, before, batch, r.cursor, r.done, now, retracted + r.retracted, calls + 1)
    ensures Todo(inv, r.cursor, r.done) < Todo(inv, cursor, false)
  {
    var ids := inv.assets.Keys;
    var page, left := Page(ids, Decode(cursor), batch), Beyond(ids, Decode(cursor));
    CursorAdvances(inv, was.Keys, cursor, batch);
    CallCount(|ids|, left, page, calls, batch);
    PageAdvances(inv, before, ids, left, Elements(page), was, retracted, now);
  }

  /** A run that has still to visit `left`: those assets have their old edges, the others the
      justified ones, and what was retracted is what was not justified among the latter. */
  ghost predicate SweptBut(inv: Inventory, before: map<Pair, Id>, ids: set<Id>, left: set<Id>, now: map<Pair, Id>,
                           retracted: nat)
  {
    && left <= ids
    && now.Keys == Onto(before.Keys, left) + Justified(inv, ids - left)
    && (forall p :: p in before && p.1 in left ==> now[p] == before[p])
    && (forall p :: p in now && p.1 in ids - left ==> Justifies(inv, (p.0, now[p]), p.1))
    && retracted == |Onto(before.Keys, ids - left) - Justified(inv, ids - left)|
  }

  lemma SweepStarts(inv: Inventory, before: map<Pair, Id>, batch: nat)
    requires OnAssets(before, inv.assets.Keys) && batch >= 1
    ensures Running(inv, before, batch, "", false, before, 0, 0)
  {
    var ids := inv.assets.Keys;
    assert Beyond(ids, None) == ids && ids - ids == {};
    NothingToReconcile(inv, before);
    assert Onto(before.Keys, ids) == before.Keys;
  }

  lemma SweepEnds(inv: Inventory, before: map<Pair, Id>, now: map<Pair, Id>, retracted: nat)
    requires SweptBut(inv, before, inv.assets.Keys, {}, now, retracted) && OnAssets(before, inv.assets.Keys)
    ensures now.Keys == Justified(inv, inv.assets.Keys)
    ensures retracted == |before.Keys - Justified(inv, inv.assets.Keys)|
    ensures ViaJustified(inv, now)
  {
    var ids := inv.assets.Keys;
    OntoAll(before.Keys, ids);
    SweptAll(before.Keys, Justified(inv, ids), now.Keys);
    EndsJustified(inv, now);
  }

  lemma SweptAll(before: set<Pair>, justified: set<Pair>, now: set<Pair>)
    requires now == {} + justified
    ensures now == justified
  {
  }

  lemma OntoAll(pairs: set<Pair>, ids: set<Id>)
    requires forall p :: p in pairs ==> p.1 in ids
    ensures Onto(pairs, ids) == pairs && Onto(pairs, {}) == {} && ids - {} == ids
  {
  }

  lemma EndsJustified(inv: Inventory, now: map<Pair, Id>)
    requires now.Keys == Justified(inv, inv.assets.Keys)
    requires forall p :: p in now && p.1 in inv.assets.Keys ==> Justifies(inv, (p.0, now[p]), p.1)
    ensures ViaJustified(inv, now)
  {
    JustifiedOnto(inv, inv.assets.Keys);
  }

  /** The cursor a page reports is a cursor for exactly what it did not visit. */
  lemma CursorAdvances(inv: Inventory, was: set<Pair>, cursor: Id, batch: nat)
    requires batch >= 1 && "" !in inv.assets
    ensures
      var ids := inv.assets.Keys;
      var page, left := Page(ids, Decode(cursor), batch), Beyond(ids, Decode(cursor));
      var r := Report(inv, was, page, batch);
      && Increasing(page) && Elements(page) <= left
      && |page| == (if |left| <= batch then |left| else batch)
      && left - Elements(page) == (if r.done then {} else Beyond(ids, Decode(r.cursor)))
      && (!r.done ==> |left - Elements(page)| < |left|)
  {
    var ids := inv.assets.Keys;
    var page := Page(ids, Decode(cursor), batch);
    PageSplits(ids, Decode(cursor), batch);
    PageSize(ids, Decode(cursor), batch);
    if page != [] {
      assert page[|page| - 1] in Elements(page);
      IncreasingCount(page);
    }
  }

  // ---- One invocation only ----

  /** Every edge joins a CVE and an asset that exist, as edges in a graph do. */
  predicate Endpoints(inv: Inventory, edges: map<Pair, Id>) {
    forall p :: p in edges ==> p.0 in inv.cves && p.1 in inv.assets
  }

  /** Whatever edges there were, one call from the empty cursor leaves exactly the justified. */
  ghost predicate OneCallReconciles(inv: Inventory, batch: nat) {
    Completes(inv, Elements(Page(inv.assets.Keys, None, batch)))
  }

  /** Reconciling the assets `ids` alone settles every asset. */
  ghost predicate Completes(inv: Inventory, ids: set<Id>) {
    forall was, now :: Endpoints(inv, was) && Reconciled(inv, was, ids, now) ==>
      now.Keys == Justified(inv, inv.assets.Keys)
  }

  /** That is so if and only if all assets fit in one page, or there is no CVE at all. */
  lemma {:induction false} OneCallIsNotTheSweep(inv: Inventory, batch: nat)
    ensures OneCallReconciles(inv, batch) <==> |inv.assets| <= batch || inv.cves == {}
  {
    assert |inv.assets| == |inv.assets.Keys|;
    OnePageCovers(inv.assets.Keys, batch);
    PageWithin(inv.assets.Keys, batch);
    CompletesAll(inv, Elements(Page(inv.assets.Keys, None, batch)));
  }

  lemma CompletesAll(inv: Inventory, page: set<Id>)
    requires page <= inv.assets.Keys
    ensures Completes(inv, page) <==> page == inv.assets.Keys || inv.cves == {}
  {
    var ids := inv.assets.Keys;
    if page == ids || inv.cves == {} {
      forall was, now | Endpoints(inv, was) && Reconciled(inv, was, page, now)
        ensures now.Keys == Justified(inv, ids)
      {
        if page == ids {
          OntoAll(was.Keys, ids);
        } else {
          NoCves(inv, was, page, now);
        }
      }
    } else {
      var a :| a in ids && a !in page;
      var c :| c in inv.cves;
      var was, now := OffPage(inv, page, c, a);
    }
  }

  lemma NoCves(inv: Inventory, was: map<Pair, Id>, page: set<Id>, now: map<Pair, Id>)
    requires inv.cves == {} && Endpoints(inv, was) && Reconciled(inv, was, page, now)
    ensures now.Keys == {} == Justified(inv, inv.assets.Keys)
  {
    assert Justified(inv, page) == {} && was.Keys == {};
  }

  lemma PageWithin(ids: set<Id>, batch: nat)
    ensures Elements(Page(ids, None, batch)) <= ids
  {
    assert forall i :: i in Page(ids, None, batch) ==> i in Sorted(Beyond(ids, None));
  }

  /** An asset off the page: an edge it should have stays missing, or one it should not have
      stays. */
  lemma OffPage(inv: Inventory, page: set<Id>, c: Id, a: Id) returns (was: map<Pair, Id>, now: map<Pair, Id>)
    requires page <= inv.assets.Keys && c in inv.cves && a in inv.assets && a !in page
    ensures Endpoints(inv, was) && Reconciled(inv, was, page, now)
    ensures now.Keys != Justified(inv, inv.assets.Keys)
  {
    var q: Pair := (c, a);
    JustifiedOnto(inv, page);
    was := if q in Justified(inv, inv.assets.Keys) then map[] else map[q := ""];
    now := AfterPage(inv, was, page);
    assert q in now <==> q !in Justified(inv, inv.assets.Keys);
  }

  /** A page can be reconciled from any edges. */
  lemma AfterPage(inv: Inventory, was: map<Pair, Id>, page: set<Id>) returns (now: map<Pair, Id>)
    ensures Reconciled(inv, was, page, now)
  {
    var kept := map p | p in was && p.1 !in page :: was[p];
    var written := map p | p in Justified(inv, page) :: Via(inv, page, p);
    JustifiedOnto(inv, page);
    now := kept + written;
  }

  ghost function Via(inv: Inventory, ids: set<Id>, p: Pair): (record: Id)
    requires p in Justified(inv, ids)
    ensures Justifies(inv, (p.0, record), p.1)
  {
    var l :| l in inv.matches && Justifies(inv, l, p.1) && l.0 == p.0;
    assert l == (p.0, l.1);
    l.1
  }

  // ---- Rows and pairs ----

  function JustifiedBy(inv: Inventory, links: set<Link>, a: Id): set<Pair> {
    set l | l in links && Justifies(inv, l, a) :: (l.0, a)
  }

  function JustifyingRecords(inv: Inventory, links: set<Link>, a: Id): set<Id> {
    set l | l in links && Justifies(inv, l, a) :: l.1
  }

  lemma CandidatesSuffice(inv: Inventory, candidates: set<Link>, a: Id)
    requires candidates <= inv.matches && forall l :: Justifies(inv, l, a) ==> l in candidates
    ensures JustifiedBy(inv, candidates, a) == Justified(inv, {a})
    ensures JustifyingRecords(inv, candidates, a) == JustifyingRecords(inv, inv.matches, a)
  {
  }

  lemma OneMore(inv: Inventory, candidates: set<Link>, rest: set<Link>, l: Link, a: Id)
    requires l in rest && rest <= candidates
    ensures JustifiedBy(inv, candidates - (rest - {l}), a) ==
      JustifiedBy(inv, candidates - rest, a) + if Justifies(inv, l, a) then {(l.0, a)} else {}
    ensures JustifyingRecords(inv, candidates - (rest - {l}), a) ==
      JustifyingRecords(inv, candidates - rest, a) + if Justifies(inv, l, a) then {l.1} else {}
  {
    assert candidates - (rest - {l}) == (candidates - rest) + {l};
  }

  lemma JustifiedGrows(inv: Inventory, page: seq<Id>, i: nat, candidates: set<Link>)
    requires i < |page|
    requires forall l :: Justifies(inv, l, page[i]) ==> l in candidates
    ensures Justified(inv, Elements(page[..i + 1])) ==
      Justified(inv, Elements(page[..i])) + JustifiedBy(inv, candidates, page[i])
  {
    assert page[..i + 1] == page[..i] + [page[i]];
    assert Elements(page[..i + 1]) == Elements(page[..i]) + {page[i]};
  }

  lemma RowPairsAppend(rows: seq<Row>, r: Row)
    ensures RowPairs(rows + [r]) == RowPairs(rows) + {(r.cve, r.asset)}
    ensures DistinctPairs(rows) && (r.cve, r.asset) !in RowPairs(rows) ==> DistinctPairs(rows + [r])
  {
    assert r in rows + [r];
    assert forall x :: x in rows ==> x in rows + [r];
  }

  lemma RowPairsConcat(rows: seq<Row>, i: nat, next: nat)
    requires i <= next <= |rows|
    ensures RowPairs(rows[..next]) == RowPairs(rows[..i]) + RowPairs(rows[i..next])
    ensures forall r :: r in rows[i..next] ==> r in rows
  {
    assert rows[..next] == rows[..i] + rows[i..next];
  }

  /** Exactly the rows' pairs were added or re-pointed, each to one of its rows' records. */
  ghost predicate WroteRows(was: map<Pair, Id>, rows: seq<Row>, now: map<Pair, Id>) {
    && now.Keys == was.Keys + RowPairs(rows)
    && (forall p :: p in was && p !in RowPairs(rows) ==> now[p] == was[p])
    && (forall p :: p in RowPairs(rows) ==> Row(p.0, p.1, now[p]) in rows)
  }

  lemma PresentGrows(inv: Inventory, rows: seq<Row>, i: nat)
    requires i < |rows|
    ensures
      var kept := rows[i].cve in inv.cves && rows[i].asset in inv.assets;
      Present(inv, rows[..i + 1]) == if kept then Present(inv, rows[..i]) + [rows[i]] else Present(inv, rows[..i])
  {
    assert rows[..i + 1][..i] == rows[..i];
  }

  lemma WroteOneMore(was: map<Pair, Id>, rows: seq<Row>, now: map<Pair, Id>, row: Row)
    requires WroteRows(was, rows, now)
    ensures WroteRows(was, rows + [row], now[(row.cve, row.asset) := row.criteriaId])
  {
    RowPairsAppend(rows, row);
    assert row in rows + [row];
    assert forall r :: r in rows ==> r in rows + [row];
  }

  lemma {:induction false} JustifiedPresent(inv: Inventory, rows: seq<Row>)
    requires forall r :: r in rows ==> RowJustified(inv, r)
    ensures Present(inv, rows) == rows
  {
    if rows != [] {
      JustifiedPresent(inv, rows[..|rows| - 1]);
      assert RowJustified(inv, rows[|rows| - 1]);
    }
  }

  /** How many of the rows have what they name: additive over lists, and over a list without
      repeats the number of edges it names. */
  lemma {:induction false} HitsCountEdges(edges: set<Pair>, rows: seq<Pair>)
    ensures Hits(edges, rows) <= |rows|
    ensures Hits(edges, rows) == 0 <==> edges !! Elements(rows)
    ensures Distinct(rows) ==> Hits(edges, rows) == |edges * Elements(rows)|
    ensures forall more :: Hits(edges, rows + more) == Hits(edges, rows) + Hits(edges, more)
  {
    if rows != [] {
      var prior, last := rows[..|rows| - 1], rows[|rows| - 1];
      HitsCountEdges(edges, prior);
      assert rows == prior + [last];
      assert Elements(rows) == Elements(prior) + {last};
      DistinctSnoc(prior, last);
      var common := edges * Elements(prior);
      assert edges * Elements(rows) == if last in edges then common + {last} else common;
    } else {
      assert edges * Elements(rows) == {};
    }
    forall more ensures Hits(edges, rows + more) == Hits(edges, rows) + Hits(edges, more) {
      HitsAppend(edges, rows, more);
    }
  }

  lemma {:induction false} HitsAppend(edges: set<Pair>, rows: seq<Pair>, more: seq<Pair>)
    ensures Hits(edges, rows + more) == Hits(edges, rows) + Hits(edges, more)
  {
    if more == [] {
      assert rows + more == rows;
    } else {
      HitsAppend(edges, rows, more[..|more| - 1]);
      assert (rows + more)[..|rows + more| - 1] == rows + more[..|more| - 1];
    }
  }

  lemma {:induction false} PresentHaveEnds(inv: Inventory, rows: seq<Row>)
    ensures forall r :: r in Present(inv, rows) <==> r in rows && r.cve in inv.cves && r.asset in inv.assets
    ensures |Present(inv, rows)| <= |rows|
    ensures |Present(inv, rows)| == |rows| <==> forall r :: r in rows ==> r.cve in inv.cves && r.asset in inv.assets
  {
    if rows != [] {
      PresentHaveEnds(inv, rows[..|rows| - 1]);
      assert rows == rows[..|rows| - 1] + [rows[|rows| - 1]];
    }
  }

  // ---- What justifies an edge, read off the records ----

  /** Record `r` is of the asset's vendor and product but for the case of letters. */
  predicate SameProduct(r: CpeMatch, asset: Asset) {
    SameButForCase(r.vendor, asset.vendor.GetOr("")) && SameButForCase(r.product, asset.product.GetOr(""))
  }

  /** Vendors and products are stored in lower case. */
  predicate StoredFolded(inv: Inventory) {
    forall k :: k in inv.criteria ==>
      Folded(Some(inv.criteria[k].vendor)) == inv.criteria[k].vendor &&
      Folded(Some(inv.criteria[k].product)) == inv.criteria[k].product
  }

  /** An edge is justified exactly when its CVE has a MATCHES edge to some record of the asset's
      vendor and product whose range admits the asset's version; how the asset spells vendor and
      product in capitals and small letters does not matter. */
  lemma JustifiedByRecord(inv: Inventory, ids: set<Id>, cve: Id, a: Id)
    requires StoredFolded(inv)
    ensures (cve, a) in Justified(inv, ids) <==>
      a in ids && a in inv.assets && cve in inv.cves &&
      exists k :: k in inv.criteria && (cve, k) in inv.matches && SameProduct(inv.criteria[k], inv.assets[a]) &&
                  VersionSatisfies(inv.assets[a].version, inv.criteria[k])
  {
    if a in inv.assets {
      forall k | k in inv.criteria
        ensures SameProduct(inv.criteria[k], inv.assets[a]) <==>
          && inv.criteria[k].vendor == Folded(inv.assets[a].vendor)
          && inv.criteria[k].product == Folded(inv.assets[a].product)
      {
        FoldedSame(inv.criteria[k].vendor, inv.assets[a].vendor);
        FoldedSame(inv.criteria[k].product, inv.assets[a].product);
      }
    }
    if (cve, a) in Justified(inv, ids) {
      var l :| l in inv.matches && a in ids && Justifies(inv, l, a) && l.0 == cve;
      assert l == (cve, l.1);
    }
    forall k | (cve, k) in inv.matches && a in ids && Justifies(inv, (cve, k), a)
      ensures (cve, a) in Justified(inv, ids)
    {
      assert (cve, k).0 == cve;
    }
  }

  lemma FoldedSame(stored: string, value: Option<string>)
    requires Folded(Some(stored)) == stored
    ensures stored == Folded(value) <==> SameButForCase(stored, value.GetOr(""))
  {
    FoldingForgetsCase(stored, value.GetOr(""));
    assert Folded(value) == Folded(Some(value.GetOr("")));
  }

  lemma {:induction false} AllHit(edges: set<Pair>, rows: seq<Pair>)
    requires forall p :: p in rows ==> p in edges
    ensures Hits(edges, rows) == |rows|
  {
    if rows != [] {
      AllHit(edges, rows[..|rows| - 1]);
    }
  }

  lemma {:induction false} RowCount(rows: seq<Row>)
    requires DistinctPairs(rows)
    ensures |RowPairs(rows)| == |rows|
  {
    if rows != [] {
      var last := |rows| - 1;
      LastPairIsNew(rows);
      RowCount(rows[..last]);
      RowPairsAppend(rows[..last], rows[last]);
      assert rows == rows[..last] + [rows[last]];
    }
  }

  lemma LastPairIsNew(rows: seq<Row>)
    requires rows != [] && DistinctPairs(rows)
    ensures
      var last := rows[|rows| - 1];
      DistinctPairs(rows[..|rows| - 1]) && (last.cve, last.asset) !in RowPairs(rows[..|rows| - 1])
  {
    var last := |rows| - 1;
    forall r | r in rows[..last] ensures (r.cve, r.asset) != (rows[last].cve, rows[last].asset) {
      var k :| 0 <= k < last && rows[k] == r;
    }
  }

  lemma ElementsAppend<T>(s: seq<T>, x: T)
    ensures Elements(s + [x]) == Elements(s) + {x}
    ensures Distinct(s) && x !in Elements(s) ==> Distinct(s + [x])
  {
    if Distinct(s) && x !in Elements(s) {
      forall i | 0 <= i < |s| ensures s[i] != x {
        assert s[i] in Elements(s);
      }
    }
  }

  /** A later chunk of a list without repeats shares nothing with what came before. */
  lemma DistinctChunk(rows: seq<Pair>, i: nat, next: nat)
    requires i <= next <= |rows| && Distinct(rows)
    ensures Distinct(rows[i..next])
    ensures Elements(rows[..next]) == Elements(rows[..i]) + Elements(rows[i..next])
    ensures Elements(rows[..i]) !! Elements(rows[i..next])
    ensures forall p :: p in rows[i..next] ==> p in rows
  {
    assert rows[..next] == rows[..i] + rows[i..next];
    forall p | p in rows[..i] ensures p !in rows[i..next] {
      var k :| 0 <= k < i && rows[k] == p;
      forall j | 0 <= j < next - i ensures rows[i..next][j] != p {
        assert rows[k] != rows[i + j];
      }
    }
  }

  // ---- One page of a whole run ----

  /** Sweeping one more page of what is left. */
  lemma PageAdvances(inv: Inventory, before: map<Pair, Id>, ids: set<Id>, left: set<Id>, swept: set<Id>,
                     was: map<Pair, Id>, retracted: nat, now: map<Pair, Id>)
    requires SweptBut(inv, before, ids, left, was, retracted) && swept <= left
    requires Reconciled(inv, was, swept, now)
    ensures SweptBut(inv, before, ids, left - swept, now, retracted + |Onto(was.Keys, swept) - Justified(inv, swept)|)
  {
    PairsAdvance(inv, before.Keys, ids, left, swept, was.Keys);
    forall p | p in before && p.1 in left - swept ensures p in now && now[p] == before[p] {
      assert p in Onto(before.Keys, left);
      assert p in was;
    }
    ViaAdvances(inv, ids, left, swept, was, now);
  }

  lemma ViaAdvances(inv: Inventory, ids: set<Id>, left: set<Id>, swept: set<Id>, was: map<Pair, Id>, now: map<Pair, Id>)
    requires forall p :: p in was && p.1 in ids - left ==> Justifies(inv, (p.0, was[p]), p.1)
    requires Reconciled(inv, was, swept, now)
    ensures forall p :: p in now && p.1 in ids - (left - swept) ==> Justifies(inv, (p.0, now[p]), p.1)
  {
    JustifiedOnto(inv, swept);
    forall p | p in now && p.1 in ids - (left - swept) ensures Justifies(inv, (p.0, now[p]), p.1) {
      if p.1 !in swept { assert p in was; }
    }
  }

  lemma PairsAdvance(inv: Inventory, before: set<Pair>, ids: set<Id>, left: set<Id>, swept: set<Id>, was: set<Pair>)
    requires swept <= left && left <= ids
    requires was == Onto(before, left) + Justified(inv, ids - left)
    ensures (was - Onto(was, swept)) + Justified(inv, swept)
      == Onto(before, left - swept) + Justified(inv, ids - (left - swept))
    ensures Onto(was, swept) == Onto(before, swept)
    ensures |Onto(before, ids - (left - swept)) - Justified(inv, ids - (left - swept))| ==
      |Onto(before, ids - left) - Justified(inv, ids - left)| + |Onto(before, swept) - Justified(inv, swept)|
  {
    JustifiedOnto(inv, ids - left);
    JustifiedOnto(inv, swept);
    JustifiedUnion(inv, ids - left, swept);
    assert ids - (left - swept) == (ids - left) + swept;
    var a := Onto(before, ids - left) - Justified(inv, ids - left);
    var b := Onto(before, swept) - Justified(inv, swept);
    assert Onto(before, ids - (left - swept)) - Justified(inv, ids - (left - swept)) == a + b;
    assert a !! b;
  }

  lemma JustifiedOnto(inv: Inventory, ids: set<Id>)
    ensures forall p :: p in Justified(inv, ids) ==> p.1 in ids
  {
  }

  lemma JustifiedUnion(inv: Inventory, a: set<Id>, b: set<Id>)
    ensures Justified(inv, a + b) == Justified(inv, a) + Justified(inv, b)
  {
  }

  predicate FullPages(total: nat, left: nat, calls: nat, batch: nat) {
    left + calls * batch == total
  }

  /** A full page takes a batch off what is left; the first short page ends the run. */
  lemma CallCount(total: nat, left: set<Id>, page: seq<Id>, calls: nat, batch: nat)
    requires batch >= 1 && FullPages(total, |left|, calls, batch)
    requires Increasing(page) && Elements(page) <= left && |page| == if |left| <= batch then |left| else batch
    ensures |page| < batch ==> calls + 1 == total / batch + 1
    ensures |page| == batch ==> FullPages(total, |left - Elements(page)|, calls + 1, batch)
  {
    if |page| < batch {
      Quotient(total, calls, |left|, batch);
    } else {
      IncreasingCount(page);
      assert |left - Elements(page)| == |left| - batch;
      assert (calls + 1) * batch == calls * batch + batch;
    }
  }

  lemma Quotient(total: nat, q: nat, r: nat, d: nat)
    requires total == q * d + r && r < d
    ensures total / d == q
  {
    var k := total / d;
    assert total == k * d + total % d;
    assert k < q ==> (k + 1) * d <= q * d;
    assert k > q ==> (q + 1) * d <= k * d;
  }
}
