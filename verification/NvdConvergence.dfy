/** Exactly when all orders of racing NVD payloads leave the same CWE edges, for any stamps: also
    for those on which the comparison is no order. */
module NvdConvergence {
  import opened Options
  import opened Ordering
  import opened NvdFreshness

  // ---- The comparison as a graph on payloads ----

  /** `q` re-syncs a CVE that holds `p`'s stamp. */
  predicate Overtakes(q: Payload, p: Payload) {
    q.lastModified.Some? && p.lastModified.Some? && IsNewer(q.lastModified, p.lastModified)
  }

  /** `p` re-syncs the CVE as it is at the start. */
  predicate Starts(c0: Cve, p: Payload) {
    p.lastModified.Some? && IsNewer(p.lastModified, c0.lastModified)
  }

  predicate Tied(p: Payload, q: Payload) {
    p.lastModified.Some? && q.lastModified.Some? && !Overtakes(p, q) && !Overtakes(q, p)
  }

  /** Each payload is overtaken by the next. */
  ghost predicate Chain(w: seq<Payload>) {
    forall i, j :: 0 <= i < |w| && j == i + 1 < |w| ==> Overtakes(w[j], w[i])
  }

  ghost predicate ChainFrom(ps: set<Payload>, w: seq<Payload>, q: Payload, p: Payload) {
    w != [] && w[0] == q && w[|w| - 1] == p && Chain(w) && Elements(w) <= ps
  }

  /** `q` is `p` or is overtaken by it, directly or through others. */
  ghost predicate Leads(ps: set<Payload>, q: Payload, p: Payload) {
    exists w :: ChainFrom(ps, w, q, p)
  }

  ghost predicate Reachable(c0: Cve, ps: set<Payload>, p: Payload) {
    exists q :: q in ps && Starts(c0, q) && Leads(ps, q, p)
  }

  /** `s` can be stored at some time and overtaken by `p` later, or is `p`. */
  ghost predicate OnTheWay(c0: Cve, ps: set<Payload>, s: Payload, p: Payload) {
    s in ps && s.lastModified.Some? && Reachable(c0, ps, s) && Leads(ps, s, p)
  }

  /** `q` is on the way to `p`, or tied with a payload that is. */
  ghost predicate Anchored(c0: Cve, ps: set<Payload>, q: Payload, p: Payload) {
    exists s :: Tied(q, s) && OnTheWay(c0, ps, s, p)
  }

  /** `p` can be stored when all of `fed` has arrived: each of them that could have been stored
      is anchored. */
  ghost predicate Settles(c0: Cve, ps: set<Payload>, fed: set<Payload>, p: Payload) {
    && OnTheWay(c0, ps, p, p)
    && forall q {:trigger Anchored(c0, ps, q, p)} :: q in fed && Starts(c0, q) ==> Anchored(c0, ps, q, p)
  }

  /** The payloads that can be the last to set the CWE edges. */
  ghost predicate Decides(c0: Cve, ps: set<Payload>, p: Payload) {
    if exists q :: q in ps && Starts(c0, q) then Settles(c0, ps, ps, p)
    else c0.lastModified.None? && p in ps
  }

  lemma LeadsToItself(ps: set<Payload>, p: Payload)
    requires p in ps
    ensures Leads(ps, p, p)
  {
    assert ChainFrom(ps, [p], p, p);
  }

  lemma LeadsOn(ps: set<Payload>, q: Payload, p: Payload, next: Payload)
    requires Leads(ps, q, p) && next in ps && Overtakes(next, p)
    ensures Leads(ps, q, next)
  {
    var w :| ChainFrom(ps, w, q, p);
    assert ChainFrom(ps, w, q, p);
    assert Elements(w + [next]) == Elements(w) + {next};
    assert ChainFrom(ps, w + [next], q, next);
  }

  lemma ReachableOn(c0: Cve, ps: set<Payload>, p: Payload, next: Payload)
    requires Reachable(c0, ps, p) && next in ps && Overtakes(next, p)
    ensures Reachable(c0, ps, next)
  {
    var q :| q in ps && Starts(c0, q) && Leads(ps, q, p);
    LeadsOn(ps, q, p, next);
  }

  lemma OvertakingIsAsymmetric(p: Payload, q: Payload)
    ensures !(Overtakes(p, q) && Overtakes(q, p)) && !Overtakes(p, p)
    ensures p.lastModified.Some? ==> Tied(p, p)
  {
    if p.lastModified.Some? {
      NewerIsAsymmetric(p.lastModified, p.lastModified);
      if q.lastModified.Some? {
        NewerIsAsymmetric(p.lastModified, q.lastModified);
      }
    }
  }

  // ---- Whatever the order, a deciding payload is the last ----

  /** The CVE as at the start, with nothing arrived that re-syncs it, or as some payload left it
      that settles what arrived. */
  ghost predicate Held(c0: Cve, ps: set<Payload>, fed: set<Payload>, c: Cve) {
    || (c.lastModified == c0.lastModified && forall q :: q in fed ==> !Starts(c0, q))
    || exists p :: Settles(c0, ps, fed, p) && c.lastModified == p.lastModified && c.cwes == Elements(p.cwes)
  }

  /** A payload that re-syncs the CVE at the start. */
  lemma FirstHeld(c0: Cve, ps: set<Payload>, fed: set<Payload>, q: Payload)
    requires q in ps && Starts(c0, q) && forall r :: r in fed ==> !Starts(c0, r)
    ensures Settles(c0, ps, fed + {q}, q)
  {
    LeadsToItself(ps, q);
    OvertakingIsAsymmetric(q, q);
  }

  /** One that overtakes the payload held. */
  lemma NextHeld(c0: Cve, ps: set<Payload>, fed: set<Payload>, p: Payload, q: Payload)
    requires Settles(c0, ps, fed, p) && q in ps && Overtakes(q, p)
    ensures Settles(c0, ps, fed + {q}, q)
  {
    LeadsToItself(ps, q);
    ReachableOn(c0, ps, p, q);
    OvertakingIsAsymmetric(q, q);
    forall r | r in fed + {q} && Starts(c0, r) ensures Anchored(c0, ps, r, q) {
      if r == q {
        assert Tied(q, q) && OnTheWay(c0, ps, q, q);
      } else {
        assert Anchored(c0, ps, r, p);
        var s :| Tied(r, s) && OnTheWay(c0, ps, s, p);
        LeadsOn(ps, s, p, q);
        assert OnTheWay(c0, ps, s, q);
      }
    }
  }

  /** One that does not. */
  lemma SameHeld(c0: Cve, ps: set<Payload>, fed: set<Payload>, p: Payload, q: Payload)
    requires Settles(c0, ps, fed, p) && q in ps && !Overtakes(q, p)
    ensures Settles(c0, ps, fed + {q}, p)
  {
    if Starts(c0, q) {
      LeadsToItself(ps, q);
      OvertakingIsAsymmetric(q, q);
      if Overtakes(p, q) {
        LeadsOn(ps, q, q, p);
        assert Tied(q, q) && OnTheWay(c0, ps, q, p);
      } else {
        assert Tied(q, p) && OnTheWay(c0, ps, p, p);
      }
    }
  }

  lemma HeldStep(c0: Cve, ps: set<Payload>, fed: set<Payload>, c: Cve, q: Payload)
    requires Held(c0, ps, fed, c) && q in ps
    ensures Held(c0, ps, fed + {q}, Applied(c, q))
  {
    if c.lastModified == c0.lastModified && forall r :: r in fed ==> !Starts(c0, r) {
      if Starts(c0, q) {
        FirstHeld(c0, ps, fed, q);
      }
    } else {
      var p :| Settles(c0, ps, fed, p) && c.lastModified == p.lastModified && c.cwes == Elements(p.cwes);
      if Overtakes(q, p) {
        NextHeld(c0, ps, fed, p, q);
      } else {
        SameHeld(c0, ps, fed, p, q);
      }
    }
  }

  lemma {:induction false} AlwaysHeld(c0: Cve, ps: set<Payload>, qs: seq<Payload>)
    requires Elements(qs) <= ps
    ensures Held(c0, ps, Elements(qs), AppliedAll(c0, qs))
  {
    if qs != [] {
      var prior, q := qs[..|qs| - 1], qs[|qs| - 1];
      Last(qs);
      assert q in Elements(qs);
      AlwaysHeld(c0, ps, prior);
      HeldStep(c0, ps, Elements(prior), AppliedAll(c0, prior), q);
    }
  }

  /** Every order ends with the CWE set of a deciding payload, or with the original one when
      there is none. */
  lemma {:induction false} EndsDecided(c0: Cve, qs: seq<Payload>)
    ensures
      || (AppliedAll(c0, qs).cwes == c0.cwes && forall p :: !Decides(c0, Elements(qs), p))
      || exists p :: Decides(c0, Elements(qs), p) && AppliedAll(c0, qs).cwes == Elements(p.cwes)
  {
    var ps := Elements(qs);
    if q :| q in ps && Starts(c0, q) {
      AlwaysHeld(c0, ps, qs);
      var p :| Settles(c0, ps, ps, p) && AppliedAll(c0, qs).cwes == Elements(p.cwes);
      assert Decides(c0, ps, p);
    } else if c0.lastModified.Some? {
      StaleNeverResurrects(c0, qs);
    } else {
      UnstampedLastWins(c0, qs);
      if qs != [] {
        assert qs[|qs| - 1] in ps && Decides(c0, ps, qs[|qs| - 1]);
      }
    }
  }

  // ---- Each deciding payload is the last in some order ----

  /** Being tied is transitive among the payloads. */
  ghost predicate TiesTransitive(ps: set<Payload>) {
    forall a, b, c :: a in ps && b in ps && c in ps && Tied(a, b) && Tied(b, c) ==> Tied(a, c)
  }

  lemma ChainJoin(ps: set<Payload>, v: seq<Payload>, w: seq<Payload>, q: Payload, m: Payload, p: Payload)
    requires ChainFrom(ps, v, q, m) && ChainFrom(ps, w, m, p)
    ensures ChainFrom(ps, v + w[1..], q, p)
    ensures Elements(v) + Elements(w) == Elements(v + w[1..])
  {
    var joined := v + w[1..];
    forall i | 0 <= i < |joined| - 1 ensures Overtakes(joined[i + 1], joined[i]) {
      if i >= |v| - 1 {
        assert joined[i] == w[i - (|v| - 1)] && joined[i + 1] == w[i - (|v| - 1) + 1];
      }
    }
    assert w == [m] + w[1..];
    assert m in Elements(v);
    assert forall x :: x in joined <==> x in v || x in w[1..];
    assert forall x :: x in w <==> x == m || x in w[1..];
  }

  /** Puts `x` into a chain no member of which it is tied with. */
  function Inserted(w: seq<Payload>, x: Payload): seq<Payload> {
    if w == [] || Overtakes(w[0], x) then [x] + w
    else [w[0]] + Inserted(w[1..], x)
  }

  lemma {:induction false} InsertedElements(w: seq<Payload>, x: Payload)
    ensures Elements(Inserted(w, x)) == Elements(w) + {x}
  {
    if w == [] || Overtakes(w[0], x) {
      assert forall y :: y in [x] + w <==> y == x || y in w;
    } else {
      InsertedElements(w[1..], x);
      Cons(w);
      Cons([w[0]] + Inserted(w[1..], x));
      assert ([w[0]] + Inserted(w[1..], x))[1..] == Inserted(w[1..], x);
    }
  }

  lemma Cons(w: seq<Payload>)
    requires w != []
    ensures Elements(w) == {w[0]} + Elements(w[1..]) && w[0] in w
    ensures forall y :: y in w[1..] ==> y in w
  {
    assert w == [w[0]] + w[1..];
  }

  lemma ChainTail(w: seq<Payload>)
    requires Chain(w) && w != []
    ensures Chain(w[1..]) && (|w| > 1 ==> Overtakes(w[1], w[0]))
  {
    forall i | 0 <= i < |w[1..]| - 1 ensures Overtakes(w[1..][i + 1], w[1..][i]) {
      assert Overtakes(w[i + 2], w[i + 1]);
    }
  }

  lemma ChainCons(x: Payload, w: seq<Payload>)
    requires Chain(w) && (w != [] ==> Overtakes(w[0], x))
    ensures Chain([x] + w)
  {
    var v := [x] + w;
    forall i | 0 <= i < |v| - 1 ensures Overtakes(v[i + 1], v[i]) {
      if i > 0 { assert Overtakes(w[i], w[i - 1]); }
    }
  }

  lemma {:induction false} InsertedChains(w: seq<Payload>, x: Payload)
    requires Chain(w) && x.lastModified.Some? && forall y :: y in w ==> y.lastModified.Some? && !Tied(x, y)
    ensures Chain(Inserted(w, x))
    ensures Inserted(w, x) != [] && (Inserted(w, x)[0] == x || (w != [] && Inserted(w, x)[0] == w[0]))
  {
    if w == [] || Overtakes(w[0], x) {
      ChainCons(x, w);
    } else {
      Cons(w);
      ChainTail(w);
      InsertedChains(w[1..], x);
      ChainCons(w[0], Inserted(w[1..], x));
    }
  }

  /** Any payloads with stamps can be chained up to ties: a chain through some of them, each
      other one tied with a member. */
  lemma {:induction false} Spine(s: set<Payload>) returns (w: seq<Payload>)
    requires forall x :: x in s ==> x.lastModified.Some?
    ensures Chain(w) && Elements(w) <= s && forall x :: x in s ==> exists y :: y in w && Tied(x, y)
  {
    if s == {} {
      w := [];
    } else {
      var x :| x in s;
      var v := Spine(s - {x});
      OvertakingIsAsymmetric(x, x);
      if exists y :: y in v && Tied(x, y) {
        w := v;
        forall z | z in s ensures exists y :: y in w && Tied(z, y) {
          if z != x { assert z in s - {x}; }
        }
      } else {
        forall y | y in v ensures y.lastModified.Some? {
          assert y in Elements(v);
        }
        InsertedChains(v, x);
        InsertedElements(v, x);
        w := Inserted(v, x);
        forall z | z in s ensures exists y :: y in w && Tied(z, y) {
          if z != x { assert z in s - {x}; }
          SpineKept(v, w, x, z);
        }
      }
    }
  }

  lemma SpineKept(v: seq<Payload>, w: seq<Payload>, x: Payload, z: Payload)
    requires Elements(w) == Elements(v) + {x} && Tied(x, x)
    requires z != x ==> exists y :: y in v && Tied(z, y)
    ensures exists y :: y in w && Tied(z, y)
  {
    if z == x {
      assert x in Elements(w);
    } else {
      var y :| y in v && Tied(z, y);
      assert y in Elements(v) && y in Elements(w);
    }
  }

  /** A walk from the start to `p` with a tie for everything that is on the way. */
  lemma Walk(c0: Cve, ps: set<Payload>, p: Payload) returns (v: seq<Payload>, first: Payload)
    requires OnTheWay(c0, ps, p, p)
    ensures Starts(c0, first) && ChainFrom(ps, v, first, p)
    ensures forall s :: OnTheWay(c0, ps, s, p) ==> exists y :: y in v && Tied(s, y)
  {
    var stops := set s | s in ps && OnTheWay(c0, ps, s, p);
    var w := Spine(stops);
    assert p in stops;
    var r, z := w[0], w[|w| - 1];
    assert r in Elements(w) && z in Elements(w);
    v, first := Extended(c0, ps, w, r, z, p);
    forall s | OnTheWay(c0, ps, s, p) ensures exists y :: y in v && Tied(s, y) {
      assert s in stops;
      var y :| y in w && Tied(s, y);
      assert y in Elements(w) && y in Elements(v);
    }
  }

  /** A chain whose ends are on the way, lengthened to the start and to `p`. */
  lemma Extended(c0: Cve, ps: set<Payload>, w: seq<Payload>, r: Payload, z: Payload, p: Payload)
    returns (v: seq<Payload>, first: Payload)
    requires ChainFrom(ps, w, r, z) && Reachable(c0, ps, r) && Leads(ps, z, p)
    ensures Starts(c0, first) && ChainFrom(ps, v, first, p) && Elements(w) <= Elements(v)
  {
    first :| first in ps && Starts(c0, first) && Leads(ps, first, r);
    var a := LeadingChain(ps, first, r);
    var b := LeadingChain(ps, z, p);
    ChainJoin(ps, a, w, first, r, z);
    ChainJoin(ps, a + w[1..], b, first, z, p);
    v := a + w[1..] + b[1..];
  }

  lemma LeadingChain(ps: set<Payload>, q: Payload, p: Payload) returns (w: seq<Payload>)
    requires Leads(ps, q, p)
    ensures ChainFrom(ps, w, q, p)
  {
    w :| ChainFrom(ps, w, q, p);
    assert ChainFrom(ps, w, q, p);
  }

  ghost function Listed(ps: set<Payload>): (order: seq<Payload>)
    ensures Elements(order) == ps
    decreases |ps|
  {
    if ps == {} then []
    else
      var p :| p in ps;
      var order := Listed(ps - {p}) + [p];
      Last(order);
      order
  }

  /** All that changes nothing while stamp `s` is stored. */
  ghost function Ignored(ps: set<Payload>, s: Option<Stamp>): seq<Payload> {
    Listed(set q | q in ps && NotAfter(q, s))
  }

  /** The walk, with everything delivered that each stop ignores. */
  ghost function Staged(ps: set<Payload>, v: seq<Payload>): seq<Payload> {
    if v == [] then [] else [v[0]] + Ignored(ps, v[0].lastModified) + Staged(ps, v[1..])
  }

  lemma {:induction false} StagedInside(ps: set<Payload>, v: seq<Payload>)
    requires Elements(v) <= ps
    ensures Elements(Staged(ps, v)) <= ps
  {
    if v != [] {
      Cons(v);
      StagedInside(ps, v[1..]);
      StagedCons(ps, v);
    }
  }

  lemma StagedCons(ps: set<Payload>, v: seq<Payload>)
    requires v != []
    ensures Elements(Staged(ps, v)) ==
      {v[0]} + Elements(Ignored(ps, v[0].lastModified)) + Elements(Staged(ps, v[1..]))
  {
    var ignored, rest := Ignored(ps, v[0].lastModified), Staged(ps, v[1..]);
    assert Staged(ps, v) == [v[0]] + ignored + rest;
  }

  lemma {:induction false} StagedHas(ps: set<Payload>, v: seq<Payload>, y: Payload, q: Payload)
    requires y in v && q in ps && NotAfter(q, y.lastModified)
    ensures q in Elements(Staged(ps, v))
  {
    StagedCons(ps, v);
    if y != v[0] {
      assert v == [v[0]] + v[1..];
      StagedHas(ps, v[1..], y, q);
    }
  }

  lemma IgnoredChangesNothing(c: Cve, ps: set<Payload>)
    requires c.lastModified.Some?
    ensures AppliedAll(c, Ignored(ps, c.lastModified)).cwes == c.cwes
    ensures AppliedAll(c, Ignored(ps, c.lastModified)).lastModified == c.lastModified
  {
    StaleNeverResurrects(c, Ignored(ps, c.lastModified));
  }

  /** Delivered so, the walk's last payload has its way. */
  lemma {:induction false} StagedEnds(c: Cve, ps: set<Payload>, v: seq<Payload>)
    requires v != [] && Chain(v) && Starts(c, v[0])
    ensures AppliedAll(c, Staged(ps, v)).cwes == Elements(v[|v| - 1].cwes)
    decreases |v|
  {
    var rest := v[1..];
    var c2 := OneStop(c, ps, v);
    if rest == [] {
      assert Staged(ps, rest) == [];
    } else {
      ChainTail(v);
      StagedEnds(c2, ps, rest);
    }
  }

  lemma OneStop(c: Cve, ps: set<Payload>, v: seq<Payload>) returns (c2: Cve)
    requires v != [] && Starts(c, v[0])
    ensures c2.lastModified == v[0].lastModified && c2.cwes == Elements(v[0].cwes)
    ensures AppliedAll(c, Staged(ps, v)) == AppliedAll(c2, Staged(ps, v[1..]))
  {
    var ignored, rest := Ignored(ps, v[0].lastModified), Staged(ps, v[1..]);
    var c1 := AppliedAll(c, [v[0]]);
    assert [v[0]][..0] == [] && c1 == Applied(AppliedAll(c, []), v[0]);
    IgnoredChangesNothing(c1, ps);
    c2 := AppliedAll(c1, ignored);
    AppliedAllConcat(c, [v[0]], ignored);
    AppliedAllConcat(c, [v[0]] + ignored, rest);
  }

  /** What is delivered first: all that leaves the CVE's stamp as it is at the start. */
  lemma Prelude(c0: Cve, ps: set<Payload>) returns (order: seq<Payload>)
    ensures Elements(order) == set q | q in ps && !Starts(c0, q)
    ensures AppliedAll(c0, order).lastModified == c0.lastModified
  {
    order := Listed(set q | q in ps && !Starts(c0, q));
    if c0.lastModified.Some? {
      StaleNeverResurrects(c0, order);
    } else {
      UnstampedLastWins(c0, order);
    }
  }

  /** A payload that settles everything is the last in some order. */
  lemma SettlesInSomeOrder(c0: Cve, ps: set<Payload>, p: Payload) returns (order: seq<Payload>)
    requires TiesTransitive(ps) && Settles(c0, ps, ps, p)
    ensures Elements(order) == ps && AppliedAll(c0, order).cwes == Elements(p.cwes)
  {
    var v, first := Walk(c0, ps, p);
    var prelude := Prelude(c0, ps);
    forall q | q in ps && Starts(c0, q) ensures q in Elements(Staged(ps, v)) {
      CoveredByWalk(c0, ps, p, v, q);
    }
    order := PreludeThenWalk(c0, ps, prelude, v, first, p);
  }

  lemma PreludeThenWalk(c0: Cve, ps: set<Payload>, prelude: seq<Payload>, v: seq<Payload>, first: Payload, p: Payload)
    returns (order: seq<Payload>)
    requires Elements(prelude) == set q | q in ps && !Starts(c0, q)
    requires AppliedAll(c0, prelude).lastModified == c0.lastModified
    requires ChainFrom(ps, v, first, p) && Starts(c0, first)
    requires forall q :: q in ps && Starts(c0, q) ==> q in Elements(Staged(ps, v))
    ensures Elements(order) == ps && AppliedAll(c0, order).cwes == Elements(p.cwes)
  {
    var c := AppliedAll(c0, prelude);
    StagedEnds(c, ps, v);
    AppliedAllConcat(c0, prelude, Staged(ps, v));
    StagedInside(ps, v);
    order := prelude + Staged(ps, v);
    assert Elements(order) == Elements(prelude) + Elements(Staged(ps, v));
  }

  lemma CoveredByWalk(c0: Cve, ps: set<Payload>, p: Payload, v: seq<Payload>, q: Payload)
    requires TiesTransitive(ps) && Settles(c0, ps, ps, p) && Elements(v) <= ps && q in ps && Starts(c0, q)
    requires forall s :: OnTheWay(c0, ps, s, p) ==> exists y :: y in v && Tied(s, y)
    ensures q in Elements(Staged(ps, v))
  {
    var s := Anchor(c0, ps, p, q);
    var y :| y in v && Tied(s, y);
    assert y in Elements(v);
    TiedThrough(ps, q, s, y);
    StagedHas(ps, v, y, q);
  }

  lemma Anchor(c0: Cve, ps: set<Payload>, p: Payload, q: Payload) returns (s: Payload)
    requires Settles(c0, ps, ps, p) && q in ps && Starts(c0, q)
    ensures Tied(q, s) && OnTheWay(c0, ps, s, p) && s in ps
  {
    assert Anchored(c0, ps, q, p);
    s :| Tied(q, s) && OnTheWay(c0, ps, s, p);
  }

  lemma TiedThrough(ps: set<Payload>, q: Payload, s: Payload, y: Payload)
    requires TiesTransitive(ps) && q in ps && s in ps && y in ps && Tied(q, s) && Tied(s, y)
    ensures NotAfter(q, y.lastModified)
  {
    assert Tied(q, y);
  }

  lemma DecidesInSomeOrder(c0: Cve, ps: set<Payload>, p: Payload) returns (order: seq<Payload>)
    requires TiesTransitive(ps) && Decides(c0, ps, p)
    ensures Elements(order) == ps && AppliedAll(c0, order).cwes == Elements(p.cwes)
  {
    if exists q :: q in ps && Starts(c0, q) {
      order := SettlesInSomeOrder(c0, ps, p);
    } else {
      order := Listed(ps) + [p];
      Last(order);
      UnstampedLastWins(c0, order);
    }
  }

  // ---- The theorem ----

  /** A stamp's instant is what its text parses to. */
  predicate OneParser(ps: set<Payload>) {
    forall p, q :: p in ps && q in ps && p.lastModified.Some? && q.lastModified.Some? ==>
      p.lastModified.value.text == q.lastModified.value.text ==> p.lastModified == q.lastModified
  }

  lemma ParsedTiesAreTransitive(ps: set<Payload>)
    requires OneParser(ps)
    ensures TiesTransitive(ps)
  {
    forall a, b, c | a in ps && b in ps && c in ps && Tied(a, b) && Tied(b, c) ensures Tied(a, c) {
      TieIsSame(ps, a, b);
      TieIsSame(ps, b, c);
    }
  }

  lemma TieIsSame(ps: set<Payload>, a: Payload, b: Payload)
    requires OneParser(ps) && a in ps && b in ps && Tied(a, b)
    ensures a.lastModified == b.lastModified ||
      (a.lastModified.value.at.Some? && a.lastModified.value.at == b.lastModified.value.at)
  {
    Trichotomy(a.lastModified.value.text, b.lastModified.value.text);
  }

  ghost predicate DecidersAgree(c0: Cve, ps: set<Payload>) {
    forall p, q :: Decides(c0, ps, p) && Decides(c0, ps, q) ==> Elements(p.cwes) == Elements(q.cwes)
  }

  /** Whatever the stamps, all orders and redeliveries leave the same CWE set if and only if the
      payloads that can be the last to set it carry the same one. */
  lemma OrdersConverge(c0: Cve, ps: set<Payload>)
    requires OneParser(ps)
    ensures OrderIrrelevant(c0, ps) <==> DecidersAgree(c0, ps)
  {
    ParsedTiesAreTransitive(ps);
    ConvergeUpToTies(c0, ps);
  }

  lemma {:induction false} ConvergeUpToTies(c0: Cve, ps: set<Payload>)
    requires TiesTransitive(ps)
    ensures OrderIrrelevant(c0, ps) <==> DecidersAgree(c0, ps)
  {
    if OrderIrrelevant(c0, ps) {
      forall p, q | Decides(c0, ps, p) && Decides(c0, ps, q) ensures Elements(p.cwes) == Elements(q.cwes) {
        var first := DecidesInSomeOrder(c0, ps, p);
        var second := DecidesInSomeOrder(c0, ps, q);
        assert AppliedAll(c0, first).cwes == AppliedAll(c0, second).cwes;
      }
    }
    if DecidersAgree(c0, ps) {
      forall qs, rs | Elements(qs) == Elements(rs) == ps ensures AppliedAll(c0, qs).cwes == AppliedAll(c0, rs).cwes {
        EndsDecided(c0, qs);
        EndsDecided(c0, rs);
      }
    }
  }

  // ---- On ranked stamps ----

  /** On ranked stamps a payload that leads to another is not newer. */
  lemma {:induction false} ChainRises(c0: Cve, ps: set<Payload>, w: seq<Payload>)
    requires Ranked(c0, ps) && w != [] && Chain(w) && Elements(w) <= ps && w[0].lastModified.Some?
    ensures w[|w| - 1].lastModified.Some? && !IsNewer(w[0].lastModified, w[|w| - 1].lastModified)
  {
    var last := |w| - 1;
    if last == 0 {
      NewerIsAsymmetric(w[0].lastModified, w[0].lastModified);
    } else {
      var prior := w[..last];
      assert Chain(prior) && Elements(prior) <= ps by {
        forall y | y in prior ensures y in ps { assert y in Elements(w); }
        forall i | 0 <= i < |prior| - 1 ensures Overtakes(prior[i + 1], prior[i]) {
          assert Overtakes(w[i + 1], w[i]);
        }
      }
      ChainRises(c0, ps, prior);
      assert Overtakes(w[last], w[last - 1]);
      NewerIsAsymmetric(w[last].lastModified, w[last - 1].lastModified);
      assert w[0] in Elements(w) && w[last] in Elements(w) && w[last - 1] in Elements(w);
      assert Involved(c0, ps, w[0].lastModified) && Involved(c0, ps, w[last].lastModified);
      assert Involved(c0, ps, w[last - 1].lastModified);
    }
  }

  lemma LeadsRises(c0: Cve, ps: set<Payload>, q: Payload, p: Payload)
    requires Ranked(c0, ps) && Leads(ps, q, p) && q.lastModified.Some?
    ensures p.lastModified.Some? && !IsNewer(q.lastModified, p.lastModified)
  {
    var w :| ChainFrom(ps, w, q, p);
    assert ChainFrom(ps, w, q, p);
    ChainRises(c0, ps, w);
  }

  /** There the payloads that settle everything are those with the newest stamp. */
  lemma {:induction false} NewestSettle(c0: Cve, ps: set<Payload>, p: Payload)
    requires Ranked(c0, ps)
    ensures Settles(c0, ps, ps, p) <==> Wins(c0, ps, p)
  {
    if Wins(c0, ps, p) {
      WinnerSettles(c0, ps, p);
    }
    if Settles(c0, ps, ps, p) {
      SettlingIsNewer(c0, ps, p);
      forall q | q in ps ensures NotAfter(q, p.lastModified) {
        if q.lastModified.Some? {
          SettlingIsNewest(c0, ps, p, q);
        }
      }
    }
  }

  lemma WinnerSettles(c0: Cve, ps: set<Payload>, p: Payload)
    requires Wins(c0, ps, p)
    ensures Settles(c0, ps, ps, p)
  {
    LeadsToItself(ps, p);
    assert OnTheWay(c0, ps, p, p);
    forall q | q in ps && Starts(c0, q) ensures Anchored(c0, ps, q, p) {
      LeadsToItself(ps, q);
      OvertakingIsAsymmetric(q, q);
      if Overtakes(p, q) {
        LeadsOn(ps, q, q, p);
        assert Tied(q, q) && OnTheWay(c0, ps, q, p);
      } else {
        assert Tied(q, p);
      }
    }
  }

  lemma SettlingIsNewer(c0: Cve, ps: set<Payload>, p: Payload)
    requires Ranked(c0, ps) && Settles(c0, ps, ps, p)
    ensures IsNewer(p.lastModified, c0.lastModified)
  {
    var q := Starter(c0, ps, p);
    LeadsRises(c0, ps, q, p);
    if c0.lastModified.Some? {
      NotNewerThrough(c0, ps, q.lastModified, p.lastModified, c0.lastModified);
    }
  }

  lemma Starter(c0: Cve, ps: set<Payload>, p: Payload) returns (q: Payload)
    requires Settles(c0, ps, ps, p)
    ensures q in ps && Starts(c0, q) && Leads(ps, q, p) && p in ps && p.lastModified.Some?
  {
    q :| q in ps && Starts(c0, q) && Leads(ps, q, p);
  }

  lemma NotNewerThrough(c0: Cve, ps: set<Payload>, a: Option<Stamp>, b: Option<Stamp>, c: Option<Stamp>)
    requires Ranked(c0, ps) && Involved(c0, ps, a) && Involved(c0, ps, b) && Involved(c0, ps, c)
    ensures !IsNewer(a, b) && !IsNewer(b, c) ==> !IsNewer(a, c)
  {
  }

  lemma SettlingIsNewest(c0: Cve, ps: set<Payload>, p: Payload, q: Payload)
    requires Ranked(c0, ps) && Settles(c0, ps, ps, p) && q in ps && q.lastModified.Some?
    requires IsNewer(p.lastModified, c0.lastModified)
    ensures !IsNewer(q.lastModified, p.lastModified)
  {
    if Starts(c0, q) {
      var s := Anchor(c0, ps, p, q);
      LeadsRises(c0, ps, s, p);
      NotNewerThrough(c0, ps, q.lastModified, s.lastModified, p.lastModified);
    } else {
      NewerIsAsymmetric(p.lastModified, c0.lastModified);
      NotNewerThrough(c0, ps, q.lastModified, c0.lastModified, p.lastModified);
    }
  }

  lemma RankedTiesAreTransitive(c0: Cve, ps: set<Payload>)
    requires Ranked(c0, ps)
    ensures TiesTransitive(ps)
  {
    forall p | p in ps && p.lastModified.Some? ensures Involved(c0, ps, p.lastModified) {
    }
  }

  /** So on ranked stamps the iff is about the payloads with the newest stamp, when newer than the
      stored one, or about all payloads when there is no stamp. */
  lemma {:induction false} RankedOrdersConverge(c0: Cve, ps: set<Payload>)
    requires Ranked(c0, ps)
    ensures OrderIrrelevant(c0, ps) <==>
      if AnyStamp(c0, ps)
      then forall p, q :: Wins(c0, ps, p) && Wins(c0, ps, q) ==> Elements(p.cwes) == Elements(q.cwes)
      else forall p, q :: p in ps && q in ps ==> Elements(p.cwes) == Elements(q.cwes)
  {
    RankedTiesAreTransitive(c0, ps);
    ConvergeUpToTies(c0, ps);
    forall p ensures Decides(c0, ps, p) <==> if AnyStamp(c0, ps) then Wins(c0, ps, p) else p in ps {
      NewestSettle(c0, ps, p);
    }
  }
}
