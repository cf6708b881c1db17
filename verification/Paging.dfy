/** Cursor pagination over ids: `WHERE id > $cursor ORDER BY id LIMIT $batch_size`. */
module Paging {
  import opened Options
  import opened Ordering

  /** The ids a scan from `cursor` has still to visit. */
  function Beyond(ids: set<Id>, cursor: Option<Id>): set<Id> {
    set i | i in ids && (cursor.None? || Lt(cursor.value, i))
  }

  function Page(ids: set<Id>, cursor: Option<Id>, batch: nat): seq<Id> {
    var all := Sorted(Beyond(ids, cursor));
    if |all| <= batch then all else all[..batch]
  }

  /** The cursor after a page: its last id, or none when the page is empty. */
  function LastOf(page: seq<Id>): Option<Id> {
    if page == [] then None else Some(page[|page| - 1])
  }

  /** Cutting an increasing list: what comes after the cut is what exceeds its last id. */
  lemma Cut(all: seq<Id>, n: nat, k: nat)
    requires Increasing(all) && 1 <= n <= |all| && k < |all|
    ensures k < n <==> all[k] in all[..n]
    ensures k < n <==> !Lt(all[n - 1], all[k])
  {
    Trichotomy(all[n - 1], all[k]);
    if k >= n {
      assert Lt(all[n - 1], all[k]);
      forall j | 0 <= j < n ensures all[..n][j] != all[k] {
        assert Lt(all[j], all[k]);
        Trichotomy(all[j], all[k]);
      }
    } else {
      assert all[..n][k] == all[k];
      if k < n - 1 { assert Lt(all[k], all[n - 1]); }
    }
  }

  /** A page is the front of the sorted list of what is left. */
  lemma PageIsFront(ids: set<Id>, cursor: Option<Id>, batch: nat)
    ensures
      var all, page := Sorted(Beyond(ids, cursor)), Page(ids, cursor, batch);
      && Increasing(all) && Increasing(page) && |page| <= batch && |page| <= |all|
      && page == all[..|page|] && (|page| < batch ==> page == all)
  {
    SortedIncreases(Beyond(ids, cursor));
  }

  lemma PageInside(ids: set<Id>, cursor: Option<Id>, batch: nat)
    requires batch >= 1
    ensures
      var page, left := Page(ids, cursor, batch), Beyond(ids, cursor);
      && Elements(page) <= left && (page == [] <==> left == {})
      && (|page| < batch ==> Elements(page) == left)
  {
    var left := Beyond(ids, cursor);
    var all, page := Sorted(left), Page(ids, cursor, batch);
    PageIsFront(ids, cursor, batch);
    assert forall i :: i in page ==> i in all;
    if page == [] {
      assert forall i :: i in left ==> i in all;
    }
  }

  /** What a non-empty page leaves: everything left that exceeds its last id. */
  lemma PageCuts(ids: set<Id>, cursor: Option<Id>, batch: nat)
    requires batch >= 1 && Page(ids, cursor, batch) != []
    ensures
      var page := Page(ids, cursor, batch);
      Beyond(ids, LastOf(page)) == Beyond(ids, cursor) - Elements(page)
  {
    var left := Beyond(ids, cursor);
    var all, page := Sorted(left), Page(ids, cursor, batch);
    var last := page[|page| - 1];
    PageIsFront(ids, cursor, batch);
    assert last == all[|page| - 1] && last in all;
    forall i | i in left ensures i !in page <==> Lt(last, i) {
      assert i in all;
      CutAt(all, |page|, i);
    }
    LastStaysBeyond(ids, cursor, last);
    BeyondLast(ids, left, last);
  }

  lemma CutAt(all: seq<Id>, n: nat, i: Id)
    requires Increasing(all) && 1 <= n <= |all| && i in all
    ensures i !in all[..n] <==> Lt(all[n - 1], i)
  {
    var k :| 0 <= k < |all| && all[k] == i;
    Cut(all, n, k);
  }

  /** A page takes the smallest ids left and its last id is a cursor for exactly the rest. */
  lemma PageSplits(ids: set<Id>, cursor: Option<Id>, batch: nat)
    requires batch >= 1
    ensures
      var page := Page(ids, cursor, batch);
      && Increasing(page) && |page| <= batch
      && Elements(page) <= Beyond(ids, cursor)
      && (page == [] <==> Beyond(ids, cursor) == {})
      && (|page| < batch ==> Elements(page) == Beyond(ids, cursor))
      && (page != [] ==> Beyond(ids, LastOf(page)) == Beyond(ids, cursor) - Elements(page))
  {
    PageIsFront(ids, cursor, batch);
    PageInside(ids, cursor, batch);
    if Page(ids, cursor, batch) != [] {
      PageCuts(ids, cursor, batch);
    }
  }

  lemma BeyondLast(ids: set<Id>, left: set<Id>, last: Id)
    requires left <= ids && Beyond(ids, Some(last)) <= left
    ensures Beyond(ids, Some(last)) == set i | i in left && Lt(last, i)
  {
  }

  /** The part of it that a scan's bookkeeping needs. */
  lemma PageTakes(ids: set<Id>, cursor: Option<Id>, batch: nat)
    requires batch >= 1 && Page(ids, cursor, batch) != []
    ensures
      var page := Page(ids, cursor, batch);
      && Increasing(page) && Elements(page) <= Beyond(ids, cursor)
      && Beyond(ids, LastOf(page)) == Beyond(ids, cursor) - Elements(page)
      && page[|page| - 1] in ids
      && |page| == (if |Beyond(ids, cursor)| <= batch then |Beyond(ids, cursor)| else batch)
  {
    PageSplits(ids, cursor, batch);
    PageSize(ids, cursor, batch);
    var page := Page(ids, cursor, batch);
    assert page[|page| - 1] in Elements(page);
  }

  lemma LastStaysBeyond(ids: set<Id>, cursor: Option<Id>, last: Id)
    requires last in Beyond(ids, cursor)
    ensures Beyond(ids, Some(last)) <= Beyond(ids, cursor)
  {
    StrictTotalOrder();
  }

  lemma PageIncreases(ids: set<Id>, cursor: Option<Id>, batch: nat)
    ensures Increasing(Page(ids, cursor, batch))
  {
    SortedIncreases(Beyond(ids, cursor));
  }

  lemma PageSize(ids: set<Id>, cursor: Option<Id>, batch: nat)
    ensures |Page(ids, cursor, batch)| == if |Beyond(ids, cursor)| <= batch then |Beyond(ids, cursor)| else batch
  {
    SortedIncreases(Beyond(ids, cursor));
  }

  lemma IncreasingCount(page: seq<Id>)
    requires Increasing(page)
    ensures |Elements(page)| == |page|
  {
    SortedUnique(page, Elements(page));
    SortedIncreases(Elements(page));
  }

  /** One page from the start covers everything exactly when everything fits in a page. */
  lemma OnePageCovers(ids: set<Id>, batch: nat)
    ensures Elements(Page(ids, None, batch)) == ids <==> |ids| <= batch
  {
    assert Beyond(ids, None) == ids;
    SortedIncreases(ids);
    if |ids| > batch {
      var page := Page(ids, None, batch);
      assert forall i, j :: 0 <= i < j < |page| ==> Lt(page[i], page[j]);
      IncreasingCount(page);
    }
  }

  // ---- How many calls a scan takes ----

  /** How many pages of at most `batch` hold `n` ids. */
  function Pages(n: nat, batch: nat): nat
    requires batch >= 1
  {
    if n == 0 then 0
    else if n <= batch then 1
    else 1 + Pages(n - batch, batch)
  }

  lemma PageTakesOne(left: set<Id>, page: seq<Id>, batch: nat)
    requires batch >= 1 && page != [] && Increasing(page) && Elements(page) <= left
    requires |page| == if |left| <= batch then |left| else batch
    ensures |left - Elements(page)| == |left| - |page|
    ensures Pages(|left|, batch) == 1 + Pages(|left - Elements(page)|, batch)
  {
    IncreasingCount(page);
  }

  /** A page of a scan over `ids`, and what it leaves. */
  lemma ScanAdvances(ids: set<Id>, cursor: Option<Id>, batch: nat)
    requires batch >= 1 && Page(ids, cursor, batch) != []
    ensures
      var page, left := Page(ids, cursor, batch), Beyond(ids, cursor);
      var rest := Beyond(ids, LastOf(page));
      && Elements(page) <= left && rest == left - Elements(page) && page[|page| - 1] in ids
      && |rest| + |page| == |left| && Pages(|left|, batch) == 1 + Pages(|rest|, batch)
  {
    PageTakes(ids, cursor, batch);
    PageTakesOne(Beyond(ids, cursor), Page(ids, cursor, batch), batch);
  }

  lemma ScanEnds(ids: set<Id>, cursor: Option<Id>, batch: nat)
    requires batch >= 1 && Page(ids, cursor, batch) == []
    ensures Beyond(ids, cursor) == {}
  {
    PageSplits(ids, cursor, batch);
  }
}
