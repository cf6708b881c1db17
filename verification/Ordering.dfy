/** Identifiers are strings compared by code point, as Python and Cypher compare them.
    This module proves that order total and defines the sorted list of a set of ids. */
module Ordering {
  type Id = string

  predicate Lt(a: Id, b: Id) {
    if |b| == 0 then false
    else if |a| == 0 then true
    else a[0] < b[0] || (a[0] == b[0] && Lt(a[1..], b[1..]))
  }

  function Elements<T(==)>(s: seq<T>): set<T> {
    set x | x in s
  }

  ghost predicate Distinct<T>(s: seq<T>) {
    forall i, j :: 0 <= i < j < |s| ==> s[i] != s[j]
  }

  /** A list has as many elements as entries exactly when it repeats none. */
  lemma {:induction false} ElementsCount<T>(s: seq<T>)
    ensures |Elements(s)| <= |s|
    ensures |Elements(s)| == |s| <==> Distinct(s)
  {
    if s != [] {
      var last := |s| - 1;
      var prior := s[..last];
      ElementsCount(prior);
      assert s == prior + [s[last]];
      assert Elements(s) == Elements(prior) + {s[last]};
      DistinctSnoc(prior, s[last]);
    }
  }

  lemma DistinctSnoc<T>(s: seq<T>, x: T)
    ensures Distinct(s + [x]) <==> Distinct(s) && x !in Elements(s)
  {
    var t := s + [x];
    assert forall i :: 0 <= i < |s| ==> t[i] == s[i];
    assert t[|s|] == x;
  }

  predicate Le(a: Id, b: Id) {
    a == b || Lt(a, b)
  }

  lemma {:induction false} Trichotomy(a: Id, b: Id)
    ensures !Lt(a, a)
    ensures Lt(a, b) || a == b || Lt(b, a)
    ensures !(Lt(a, b) && Lt(b, a))
  {
    if |a| > 0 {
      Trichotomy(a[1..], a[1..]);
      if |b| > 0 {
        Trichotomy(a[1..], b[1..]);
        assert a == [a[0]] + a[1..] && b == [b[0]] + b[1..];
      }
    }
  }

  lemma {:induction false} Transitive(a: Id, b: Id, c: Id)
    requires Lt(a, b) && Lt(b, c)
    ensures Lt(a, c)
  {
    if |a| > 0 && a[0] == b[0] && b[0] == c[0] {
      Transitive(a[1..], b[1..], c[1..]);
    }
  }

  /** The order facts, for every pair and triple at once. */
  lemma StrictTotalOrder()
    ensures forall a: Id, b: Id :: Lt(a, b) || a == b || Lt(b, a)
    ensures forall a: Id, b: Id :: Lt(a, b) ==> a != b && !Lt(b, a)
    ensures forall a: Id, b: Id, c: Id :: Lt(a, b) && Lt(b, c) ==> Lt(a, c)
  {
    forall a: Id, b: Id
      ensures (Lt(a, b) || a == b || Lt(b, a)) && (Lt(a, b) ==> a != b && !Lt(b, a))
    {
      Trichotomy(a, b);
    }
    forall a: Id, b: Id, c: Id | Lt(a, b) && Lt(b, c) ensures Lt(a, c) {
      Transitive(a, b, c);
    }
  }

  /** A common prefix does not matter to the order. */
  lemma {:induction false} LtPrefix(prefix: Id, a: Id, b: Id)
    requires Lt(a, b)
    ensures Lt(prefix + a, prefix + b)
  {
    if prefix == [] {
      assert prefix + a == a && prefix + b == b;
    } else {
      LtPrefix(prefix[1..], a, b);
      assert (prefix + a)[1..] == prefix[1..] + a && (prefix + b)[1..] == prefix[1..] + b;
    }
  }

  /** The order of a dictionary: `k` is where the two first differ, or where the first ends. */
  predicate DecidedAt(a: Id, b: Id, k: nat) {
    && k <= |a| && k < |b| && a[..k] == b[..k]
    && (k == |a| || a[k] < b[k])
  }

  lemma {:induction false} LtDecided(a: Id, b: Id) returns (k: nat)
    requires Lt(a, b)
    ensures DecidedAt(a, b, k)
  {
    if a == [] || a[0] < b[0] {
      k := 0;
    } else {
      var j := LtDecided(a[1..], b[1..]);
      assert a == [a[0]] + a[1..] && b == [b[0]] + b[1..];
      k := j + 1;
    }
  }

  lemma {:induction false} DecidedIsLt(a: Id, b: Id, k: nat)
    requires DecidedAt(a, b, k)
    ensures Lt(a, b)
  {
    if k > 0 {
      assert a[..k][0] == b[..k][0];
      assert a[1..][..k - 1] == a[..k][1..] && b[1..][..k - 1] == b[..k][1..];
      DecidedIsLt(a[1..], b[1..], k - 1);
    }
  }

  lemma LtIsLexicographic(a: Id, b: Id)
    ensures Lt(a, b) <==> exists k: nat :: DecidedAt(a, b, k)
  {
    if Lt(a, b) {
      var k := LtDecided(a, b);
    }
    if exists k: nat :: DecidedAt(a, b, k) {
      var k: nat :| DecidedAt(a, b, k);
      DecidedIsLt(a, b, k);
    }
  }

  predicate IsMin(s: set<Id>, m: Id) {
    m in s && forall x :: x in s ==> Le(m, x)
  }

  lemma {:induction false} MinExists(s: set<Id>)
    requires s != {}
    ensures exists m :: IsMin(s, m)
  {
    StrictTotalOrder();
    var x :| x in s;
    if s == {x} {
      assert IsMin(s, x);
    } else {
      var rest := s - {x};
      assert s == {x} + rest;
      MinExists(rest);
      var m :| IsMin(rest, m);
      var least := if Lt(x, m) then x else m;
      forall y | y in s ensures Le(least, y) {
        if y != x { assert y in rest; }
      }
      assert IsMin(s, least);
    }
  }

  function Min(s: set<Id>): (m: Id)
    requires s != {}
    ensures IsMin(s, m)
  {
    MinExists(s);
    StrictTotalOrder();
    var m :| m in s && IsMin(s, m);
    m
  }

  predicate Increasing(s: seq<Id>) {
    forall i, j :: 0 <= i < j < |s| ==> Lt(s[i], s[j])
  }

  /** Python's `sorted` on a set of ids; Cypher's ORDER BY on a unique id. */
  function Sorted(s: set<Id>): (r: seq<Id>)
    ensures forall x :: x in r <==> x in s
  {
    if s == {} then []
    else
      var m := Min(s);
      [m] + Sorted(s - {m})
  }

  lemma {:induction false} SortedIncreases(s: set<Id>)
    ensures Increasing(Sorted(s)) && |Sorted(s)| == |s|
  {
    if s != {} {
      var m := Min(s);
      SortedIncreases(s - {m});
      PrependMin(s, m, Sorted(s - {m}));
    }
  }

  lemma PrependMin(s: set<Id>, m: Id, rest: seq<Id>)
    requires IsMin(s, m) && Increasing(rest)
    requires forall x :: x in rest <==> x in s - {m}
    ensures Increasing([m] + rest)
  {
    forall i, j | 0 <= i < j < |[m] + rest| ensures Lt(([m] + rest)[i], ([m] + rest)[j]) {
      assert rest[j - 1] in rest;
    }
  }

  /** Dropping the last entry of an increasing list drops exactly that id. */
  lemma IncreasingPrefix(r: seq<Id>)
    requires Increasing(r) && r != []
    ensures Increasing(r[..|r| - 1])
    ensures forall x :: x in r[..|r| - 1] <==> x in r && x != r[|r| - 1]
  {
    var last := |r| - 1;
    forall x | x in r[..last] ensures x in r && x != r[last] {
      var i :| 0 <= i < last && r[i] == x;
      assert Lt(r[i], r[last]);
      Trichotomy(r[i], r[last]);
      Trichotomy(x, x);
    }
  }

  /** There is only one increasing list with given elements. */
  lemma {:induction false} SortedUnique(r: seq<Id>, s: set<Id>)
    requires Increasing(r)
    requires forall x :: x in r <==> x in s
    ensures r == Sorted(s)
  {
    StrictTotalOrder();
    if r == [] {
      assert s == {};
    } else {
      assert r[0] in s;
      var m := Min(s);
      assert r[0] == m;
      assert forall x :: x in r[1..] <==> x in s - {m} by {
        forall x | x in r[1..] ensures x in s - {m} {
          var i :| 0 <= i < |r[1..]| && r[1..][i] == x;
          assert r[i + 1] == x && Lt(r[0], r[i + 1]);
        }
        forall x | x in s - {m} ensures x in r[1..] {
          var i :| 0 <= i < |r| && r[i] == x;
          assert r[1..][i - 1] == x;
        }
      }
      SortedUnique(r[1..], s - {m});
    }
  }
}
