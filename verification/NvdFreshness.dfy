/** The NVD freshness guard: which payload's CWE set a CVE ends up with when payloads race. */
module NvdFreshness {
  import opened Options
  import opened Ordering

  /** A `lastModified` text with the instant it parses to, if it parses. */
  datatype Stamp = Stamp(text: string, at: Option<int>)

  /** A stored property; a payload never carries a null. */
  datatype Value = Number(number: real) | Text(text: string)

  const CVSS := "cvss_score"

  datatype Payload = Payload(
    lastModified: Option<Stamp>,
    properties: map<string, Value>,
    cwes: seq<Id>,
    matches: seq<Id>)

  /** The CVE node with the far ends of its CATEGORIZED_AS and MATCHES edges. */
  datatype Cve = Cve(
    lastModified: Option<Stamp>,
    properties: map<string, Value>,
    cwes: set<Id>,
    matches: set<Id>)

  const STUB := Cve(None, map[], {}, {})

  predicate IsNewer(incoming: Option<Stamp>, stored: Option<Stamp>) {
    if stored.None? then true
    else if incoming.None? then false
    else if incoming.value.at.Some? && stored.value.at.Some? then incoming.value.at.value > stored.value.at.value
    else Lt(stored.value.text, incoming.value.text)
  }

  /** One payload against an existing CVE. */
  function Applied(c: Cve, p: Payload): Cve {
    var newer := IsNewer(p.lastModified, c.lastModified);
    Cve(if newer && p.lastModified.Some? then p.lastModified else c.lastModified,
        c.properties + p.properties,
        if newer then Elements(p.cwes) else c.cwes,
        if newer || c.matches == {} then Elements(p.matches) else c.matches)
  }

  function AppliedAll(c: Cve, ps: seq<Payload>): Cve {
    if ps == [] then c else Applied(AppliedAll(c, ps[..|ps| - 1]), ps[|ps| - 1])
  }

  datatype Outcome = Absent | Resynced | Stale

  datatype Result = Result(outcome: Outcome, cvssChanged: bool, createdMatches: seq<Id>)

  datatype Resync = Resync(created: seq<Id>, deleted: set<Id>)

  /** Both re-syncs: merge an edge to each wanted id, then delete the difference. */
  method ResyncEdges(existing: set<Id>, wanted: seq<Id>) returns (edges: set<Id>, r: Resync)
    ensures edges == Elements(wanted)
    ensures Elements(r.created) == Elements(wanted) - existing && Distinct(r.created)
    ensures r.deleted == existing - Elements(wanted)
  {
    var created: seq<Id> := [];
    edges := existing;
    for i := 0 to |wanted|
      invariant edges == existing + Elements(wanted[..i])
      invariant Elements(created) == Elements(wanted[..i]) - existing
      invariant Distinct(created)
    {
      assert wanted[..i + 1] == wanted[..i] + [wanted[i]];
      assert Elements(wanted[..i + 1]) == Elements(wanted[..i]) + {wanted[i]};
      if wanted[i] !in edges {
        assert wanted[i] !in Elements(created);
        assert forall k :: 0 <= k < |created| ==> created[k] in Elements(created);
        assert Elements(created + [wanted[i]]) == Elements(created) + {wanted[i]};
        created := created + [wanted[i]];
      }
      edges := edges + {wanted[i]};
    }
    assert wanted[..|wanted|] == wanted;
    var toDelete := edges - Elements(wanted);
    edges := edges - toDelete;
    r := Resync(created, toDelete);
  }

  class CveStore {
    var cves: map<Id, Cve>

    constructor ()
      ensures cves == map[]
    {
      cves := map[];
    }

    /** `_apply_cve_tx`, atomic under the node lock. The delta path (`allowCreate` false) never
        creates a node; the on-demand path creates a stub first. */
    method ApplyCve(id: Id, p: Payload, allowCreate: bool) returns (r: Result)
      modifies this
      ensures id !in old(cves) && !allowCreate ==> r == Result(Absent, false, []) && cves == old(cves)
      ensures id in old(cves) || allowCreate ==>
        var before := if id in old(cves) then old(cves)[id] else STUB;
        && cves == old(cves)[id := Applied(before, p)]
        && r.cvssChanged == (CVSS in p.properties &&
             (CVSS in before.properties ==> p.properties[CVSS] != before.properties[CVSS]))
        && (r.outcome == Stale <==> !IsNewer(p.lastModified, before.lastModified) && before.matches != {})
        && r.outcome != Absent
        && Elements(r.createdMatches) == (if r.outcome == Stale then {} else Elements(p.matches) - before.matches)
    {
      if id !in cves && !allowCreate {
        return Result(Absent, false, []);
      }
      var c := if id in cves then cves[id] else STUB;
      var storedLastModified, hasMatches := c.lastModified, c.matches != {};
      var cvssChanged := CVSS in p.properties &&
        (CVSS !in c.properties || p.properties[CVSS] != c.properties[CVSS]);
      assert p.properties == map[] ==> c.properties + p.properties == c.properties;
      if p.properties != map[] {
        c := c.(properties := c.properties + p.properties);
      }
      var isFresh := IsNewer(p.lastModified, storedLastModified);
      if isFresh || !hasMatches {
        if isFresh {
          var cwes, resync := ResyncEdges(c.cwes, p.cwes);
          c := c.(cwes := cwes);
        }
        var matches, resync := ResyncEdges(c.matches, p.matches);
        c := c.(matches := matches);
        if p.lastModified.Some? && isFresh {
          c := c.(lastModified := p.lastModified);
        }
        cves := cves[id := c];
        return Result(Resynced, cvssChanged, resync.created);
      }
      cves := cves[id := c];
      return Result(Stale, cvssChanged, []);
    }
  }

  // ---- Which payload wins ----

  /** Payload `p` is not newer than stamp `s`. */
  predicate NotAfter(p: Payload, s: Option<Stamp>) {
    p.lastModified.Some? ==> !IsNewer(p.lastModified, s)
  }

  /** Every stamp involved, stored or arriving. */
  predicate Involved(c0: Cve, ps: set<Payload>, s: Option<Stamp>) {
    s.Some? && (s == c0.lastModified || exists p :: p in ps && p.lastModified == s)
  }

  /** "Not newer" is transitive on the stamps involved, so that the comparison ranks them. */
  ghost predicate Ranked(c0: Cve, ps: set<Payload>) {
    forall a, b, c ::
      (Involved(c0, ps, a) && Involved(c0, ps, b) && Involved(c0, ps, c) && !IsNewer(a, b) && !IsNewer(b, c)) ==>
        !IsNewer(a, c)
  }

  /** Of two stamps at most one is newer than the other. */
  lemma NewerIsAsymmetric(a: Option<Stamp>, b: Option<Stamp>)
    requires a.Some? && b.Some?
    ensures !(IsNewer(a, b) && IsNewer(b, a)) && !IsNewer(a, a)
  {
    Trichotomy(a.value.text, b.value.text);
    Trichotomy(a.value.text, a.value.text);
  }

  // ---- Which stamps the comparison ranks ----

  predicate Parsed(s: Option<Stamp>) {
    s.Some? ==> s.value.at.Some?
  }

  predicate AllParsed(c0: Cve, ps: set<Payload>) {
    Parsed(c0.lastModified) && forall p :: p in ps ==> Parsed(p.lastModified)
  }

  /** When every stamp parses, they are ranked by instant. */
  lemma ParsedIsRanked(c0: Cve, ps: set<Payload>)
    requires AllParsed(c0, ps)
    ensures Ranked(c0, ps)
  {
  }

  /** Stamps that parse compare by instant as their texts do: one format. */
  ghost predicate OneFormat(c0: Cve, ps: set<Payload>) {
    forall a, b :: Involved(c0, ps, a) && Involved(c0, ps, b) && a.value.at.Some? && b.value.at.Some? ==>
      (a.value.at.value > b.value.at.value <==> Lt(b.value.text, a.value.text))
  }

  /** When text order and instant order agree they are ranked by text, parsed or not. */
  lemma OneFormatIsRanked(c0: Cve, ps: set<Payload>)
    requires OneFormat(c0, ps)
    ensures Ranked(c0, ps)
  {
    StrictTotalOrder();
    forall a, b | Involved(c0, ps, a) && Involved(c0, ps, b)
      ensures IsNewer(a, b) <==> Lt(b.value.text, a.value.text)
    {
    }
  }

  /** `p` carries the newest stamp of `ps`, and that is newer than the one stored in `c0`. */
  predicate Wins(c0: Cve, ps: set<Payload>, p: Payload) {
    && p in ps && p.lastModified.Some? && IsNewer(p.lastModified, c0.lastModified)
    && forall q :: q in ps ==> NotAfter(q, p.lastModified)
  }

  /** What the guard promises of the state `c` reached from `c0`: no stamp is newer than the
      stored one; the CWE set is that of a winning payload, or the original one when nothing is
      newer than the original stamp. */
  ghost predicate Guarded(c0: Cve, ps: set<Payload>, c: Cve) {
    && c.lastModified.Some?
    && (forall p :: p in ps ==> NotAfter(p, c.lastModified))
    && ((c.lastModified == c0.lastModified && c.cwes == c0.cwes) ||
        exists p :: Wins(c0, ps, p) && p.lastModified == c.lastModified && c.cwes == Elements(p.cwes))
  }

  /** Some timestamp is known, stored or arriving. */
  predicate AnyStamp(c0: Cve, ps: set<Payload>) {
    c0.lastModified.Some? || exists p :: p in ps && p.lastModified.Some?
  }

  predicate Unstamped(ps: set<Payload>) {
    forall p :: p in ps ==> p.lastModified.None?
  }

  lemma Last(ps: seq<Payload>)
    requires ps != []
    ensures Elements(ps) == Elements(ps[..|ps| - 1]) + {ps[|ps| - 1]}
  {
    assert ps == ps[..|ps| - 1] + [ps[|ps| - 1]];
  }

  /** Until the first timestamp arrives nothing is stored and every payload re-syncs. */
  lemma {:induction false} UnstampedLastWins(c0: Cve, ps: seq<Payload>)
    requires c0.lastModified.None? && Unstamped(Elements(ps))
    ensures AppliedAll(c0, ps).lastModified.None?
    ensures ps != [] ==> AppliedAll(c0, ps).cwes == Elements(ps[|ps| - 1].cwes)
  {
    if ps != [] {
      Last(ps);
      UnstampedLastWins(c0, ps[..|ps| - 1]);
    }
  }

  lemma GuardStep(c0: Cve, ps: set<Payload>, c: Cve, p: Payload)
    requires Ranked(c0, ps + {p}) && Guarded(c0, ps, c)
    ensures Guarded(c0, ps + {p}, Applied(c, p))
  {
    var all := ps + {p};
    assert p in all && Involved(c0, all, c.lastModified) by {
      if c.lastModified != c0.lastModified {
        var w :| Wins(c0, ps, w) && w.lastModified == c.lastModified && c.cwes == Elements(w.cwes);
        assert w in all;
      }
    }
    if p.lastModified.Some? && IsNewer(p.lastModified, c.lastModified) {
      NewestWins(c0, ps, c, p);
    } else if !(c.lastModified == c0.lastModified && c.cwes == c0.cwes) {
      var w :| Wins(c0, ps, w) && w.lastModified == c.lastModified && c.cwes == Elements(w.cwes);
      assert Wins(c0, all, w);
    }
  }

  /** A payload newer than the state wins over everything before it. */
  lemma NewestWins(c0: Cve, ps: set<Payload>, c: Cve, p: Payload)
    requires Ranked(c0, ps + {p}) && Guarded(c0, ps, c) && Involved(c0, ps + {p}, c.lastModified)
    requires p.lastModified.Some? && IsNewer(p.lastModified, c.lastModified)
    ensures Wins(c0, ps + {p}, p)
  {
    var all := ps + {p};
    NewerIsAsymmetric(p.lastModified, c.lastModified);
    forall q | q in all ensures NotAfter(q, p.lastModified) {
      if q != p && q.lastModified.Some? {
        assert Involved(c0, all, q.lastModified) && Involved(c0, all, p.lastModified);
        assert !IsNewer(q.lastModified, c.lastModified) && !IsNewer(c.lastModified, p.lastModified);
      } else if q.lastModified.Some? {
        NewerIsAsymmetric(p.lastModified, p.lastModified);
      }
    }
    if c0.lastModified.Some? && !IsNewer(p.lastModified, c0.lastModified) {
      NotOlder(c0, ps, c, p);
    }
  }

  /** Nothing is newer than the state and yet not newer than the original. */
  lemma NotOlder(c0: Cve, ps: set<Payload>, c: Cve, p: Payload)
    requires Ranked(c0, ps + {p}) && Guarded(c0, ps, c) && c0.lastModified.Some? && p.lastModified.Some?
    requires Involved(c0, ps + {p}, c.lastModified) && !IsNewer(p.lastModified, c0.lastModified)
    ensures !IsNewer(p.lastModified, c.lastModified)
  {
    var all := ps + {p};
    assert p in all && Involved(c0, all, p.lastModified) && Involved(c0, all, c0.lastModified);
    if c.lastModified != c0.lastModified {
      var w :| Wins(c0, ps, w) && w.lastModified == c.lastModified && c.cwes == Elements(w.cwes);
      NewerIsAsymmetric(c.lastModified, c0.lastModified);
      assert !IsNewer(c0.lastModified, c.lastModified);
    }
  }

  /** The first known timestamp. */
  lemma GuardStarts(c0: Cve, ps: set<Payload>, c: Cve, p: Payload)
    requires c0.lastModified.None? && Unstamped(ps) && c.lastModified.None? && p.lastModified.Some?
    ensures Guarded(c0, ps + {p}, Applied(c, p))
  {
    NewerIsAsymmetric(p.lastModified, p.lastModified);
    assert Wins(c0, ps + {p}, p);
  }

  lemma RankedPrefix(c0: Cve, ps: set<Payload>, more: set<Payload>)
    requires Ranked(c0, more) && ps <= more
    ensures Ranked(c0, ps)
  {
    forall s | Involved(c0, ps, s) ensures Involved(c0, more, s) {
    }
  }

  /** Whatever order payloads arrive in, the guard's promise holds as soon as one timestamp is
      known, stored or arrived. */
  lemma {:induction false} GuardHolds(c0: Cve, ps: seq<Payload>)
    requires Ranked(c0, Elements(ps)) && AnyStamp(c0, Elements(ps))
    ensures Guarded(c0, Elements(ps), AppliedAll(c0, ps))
  {
    if ps != [] {
      var prior, p := ps[..|ps| - 1], ps[|ps| - 1];
      Last(ps);
      RankedPrefix(c0, Elements(prior), Elements(ps));
      if AnyStamp(c0, Elements(prior)) {
        GuardHolds(c0, prior);
        GuardStep(c0, Elements(prior), AppliedAll(c0, prior), p);
      } else {
        UnstampedLastWins(c0, prior);
        GuardStarts(c0, Elements(prior), AppliedAll(c0, prior), p);
      }
    }
  }

  /** A dropped CWE is not resurrected: once a stamp is stored, no sequence of payloads none of
      which is newer changes the stamp or a CATEGORIZED_AS edge. */
  lemma {:induction false} StaleNeverResurrects(c: Cve, ps: seq<Payload>)
    requires c.lastModified.Some? && forall p :: p in Elements(ps) ==> NotAfter(p, c.lastModified)
    ensures AppliedAll(c, ps).cwes == c.cwes && AppliedAll(c, ps).lastModified == c.lastModified
  {
    if ps != [] {
      Last(ps);
      StaleNeverResurrects(c, ps[..|ps| - 1]);
      assert ps[|ps| - 1] in Elements(ps);
    }
  }

  // ---- What does not wait for the guard ----

  /** Payload `i` is the last of `ps` to name property `key`. */
  predicate LastToName(ps: seq<Payload>, key: string, i: nat) {
    i < |ps| && key in ps[i].properties && forall j :: i < j < |ps| ==> key !in ps[j].properties
  }

  predicate NobodyNames(ps: seq<Payload>, key: string) {
    forall j :: 0 <= j < |ps| ==> key !in ps[j].properties
  }

  /** A property no payload names keeps what is stored. */
  lemma {:induction false} UnnamedStays(c: Cve, ps: seq<Payload>, key: string)
    requires NobodyNames(ps, key)
    ensures key in AppliedAll(c, ps).properties <==> key in c.properties
    ensures key in c.properties ==> AppliedAll(c, ps).properties[key] == c.properties[key]
  {
    if ps != [] {
      UnnamedStays(c, ps[..|ps| - 1], key);
    }
  }

  /** Any other ends with the value of the last payload that names it, stale or not. */
  lemma {:induction false} LastValueWins(c: Cve, ps: seq<Payload>, key: string, i: nat)
    requires LastToName(ps, key, i)
    ensures key in AppliedAll(c, ps).properties && AppliedAll(c, ps).properties[key] == ps[i].properties[key]
  {
    if i < |ps| - 1 {
      LastValueWins(c, ps[..|ps| - 1], key, i);
    }
  }

  /** Payload `i` is the first of `ps` with a MATCHES edge to bring. */
  predicate FirstToMatch(ps: seq<Payload>, i: nat) {
    i < |ps| && ps[i].matches != [] && forall j :: 0 <= j < i ==> ps[j].matches == []
  }

  /** Payloads none of which is newer fill in missing MATCHES edges, the first that has any,
      and never change those that are there. */
  lemma {:induction false} StaleBackfillsMatches(c: Cve, ps: seq<Payload>)
    requires c.lastModified.Some? && forall p :: p in Elements(ps) ==> NotAfter(p, c.lastModified)
    ensures c.matches != {} ==> AppliedAll(c, ps).matches == c.matches
    ensures c.matches == {} && (forall j :: 0 <= j < |ps| ==> ps[j].matches == []) ==> AppliedAll(c, ps).matches == {}
    ensures c.matches == {} ==>
      forall i: nat :: FirstToMatch(ps, i) ==> AppliedAll(c, ps).matches == Elements(ps[i].matches)
  {
    if ps != [] {
      var last := |ps| - 1;
      var prior, p := ps[..last], ps[last];
      Last(ps);
      StaleBackfillsMatches(c, prior);
      StaleNeverResurrects(c, prior);
      assert p in Elements(ps) && (p.matches != [] ==> p.matches[0] in Elements(p.matches));
      forall i: nat | FirstToMatch(ps, i) && c.matches == {}
        ensures AppliedAll(c, ps).matches == Elements(ps[i].matches)
      {
        if i < last {
          assert FirstToMatch(prior, i) && ps[i].matches[0] in Elements(ps[i].matches);
        }
      }
    }
  }

  /** A newer payload sets stamp, CWEs and MATCHES together, and with any MATCHES at all they
      stay until a newer one still arrives. */
  lemma NewerSettles(c: Cve, p: Payload, ps: seq<Payload>)
    requires p.lastModified.Some? && IsNewer(p.lastModified, c.lastModified) && p.matches != []
    requires forall q :: q in Elements(ps) ==> NotAfter(q, p.lastModified)
    ensures
      var end := AppliedAll(c, [p] + ps);
      end.lastModified == p.lastModified && end.cwes == Elements(p.cwes) && end.matches == Elements(p.matches)
  {
    assert [p][..0] == [] && AppliedAll(c, []) == c;
    assert AppliedAll(c, [p]) == Applied(c, p);
    assert p.matches[0] in Elements(p.matches);
    AppliedAllConcat(c, [p], ps);
    StaleNeverResurrects(Applied(c, p), ps);
    StaleBackfillsMatches(Applied(c, p), ps);
  }

  // ---- Where all orders end ----

  /** Every order and every redelivery of the payloads `ps` ends with the same CWE set. */
  ghost predicate OrderIrrelevant(c0: Cve, ps: set<Payload>) {
    forall qs, rs :: Elements(qs) == Elements(rs) == ps ==> AppliedAll(c0, qs).cwes == AppliedAll(c0, rs).cwes
  }

  /** On ranked stamps every order ends with an equally new one stored. */
  lemma StampsConverge(c0: Cve, qs: seq<Payload>, rs: seq<Payload>)
    requires Ranked(c0, Elements(qs)) && AnyStamp(c0, Elements(qs)) && Elements(qs) == Elements(rs)
    ensures AppliedAll(c0, qs).lastModified.Some? && AppliedAll(c0, rs).lastModified.Some?
    ensures !IsNewer(AppliedAll(c0, qs).lastModified, AppliedAll(c0, rs).lastModified)
    ensures !IsNewer(AppliedAll(c0, rs).lastModified, AppliedAll(c0, qs).lastModified)
  {
    GuardHolds(c0, qs);
    GuardHolds(c0, rs);
    NotLater(c0, Elements(qs), AppliedAll(c0, qs), AppliedAll(c0, rs));
    NotLater(c0, Elements(qs), AppliedAll(c0, rs), AppliedAll(c0, qs));
  }

  lemma NotLater(c0: Cve, ps: set<Payload>, c: Cve, d: Cve)
    requires Guarded(c0, ps, c) && Guarded(c0, ps, d)
    ensures !IsNewer(c.lastModified, d.lastModified)
  {
    if c.lastModified == c0.lastModified {
      if d.lastModified == c0.lastModified {
        NewerIsAsymmetric(c.lastModified, c.lastModified);
      } else {
        NewerIsAsymmetric(d.lastModified, c0.lastModified);
      }
    } else {
      var w :| Wins(c0, ps, w) && w.lastModified == c.lastModified && c.cwes == Elements(w.cwes);
      assert w in ps && NotAfter(w, d.lastModified);
    }
  }

  /** With parsed stamps that is the same instant: the latest of all, stored or arriving. */
  lemma InstantsConverge(c0: Cve, qs: seq<Payload>, rs: seq<Payload>)
    requires AllParsed(c0, Elements(qs)) && AnyStamp(c0, Elements(qs)) && Elements(qs) == Elements(rs)
    ensures AppliedAll(c0, qs).lastModified.Some? && AppliedAll(c0, rs).lastModified.Some?
    ensures AppliedAll(c0, qs).lastModified.value.at.Some?
    ensures AppliedAll(c0, qs).lastModified.value.at == AppliedAll(c0, rs).lastModified.value.at
    ensures LatestOf(c0, Elements(qs), AppliedAll(c0, qs).lastModified)
  {
    ParsedIsRanked(c0, Elements(qs));
    StampsConverge(c0, qs, rs);
    GuardHolds(c0, qs);
    GuardHolds(c0, rs);
    StoredParses(c0, Elements(qs), AppliedAll(c0, qs));
    StoredParses(c0, Elements(qs), AppliedAll(c0, rs));
    StoredIsLatest(c0, Elements(qs), AppliedAll(c0, qs));
  }

  /** `s` is one of the stamps involved and no other has a later instant. */
  ghost predicate LatestOf(c0: Cve, ps: set<Payload>, s: Option<Stamp>) {
    && Involved(c0, ps, s) && s.value.at.Some?
    && forall x :: Involved(c0, ps, x) && x.value.at.Some? ==> x.value.at.value <= s.value.at.value
  }

  lemma StoredIsLatest(c0: Cve, ps: set<Payload>, c: Cve)
    requires AllParsed(c0, ps) && Guarded(c0, ps, c)
    ensures LatestOf(c0, ps, c.lastModified)
  {
    StoredParses(c0, ps, c);
    if c.lastModified != c0.lastModified {
      var w :| Wins(c0, ps, w) && w.lastModified == c.lastModified && c.cwes == Elements(w.cwes);
      assert w in ps;
    }
    forall x | Involved(c0, ps, x) && x.value.at.Some? ensures x.value.at.value <= c.lastModified.value.at.value {
      if x != c0.lastModified {
        var p :| p in ps && p.lastModified == x;
        assert NotAfter(p, c.lastModified);
      }
    }
  }

  lemma StoredParses(c0: Cve, ps: set<Payload>, c: Cve)
    requires AllParsed(c0, ps) && Guarded(c0, ps, c)
    ensures c.lastModified.value.at.Some?
  {
    if c.lastModified != c0.lastModified {
      var w :| Wins(c0, ps, w) && w.lastModified == c.lastModified && c.cwes == Elements(w.cwes);
      assert w in ps;
    }
  }

  lemma {:induction false} AppliedAllConcat(c0: Cve, first: seq<Payload>, rest: seq<Payload>)
    ensures AppliedAll(c0, first + rest) == AppliedAll(AppliedAll(c0, first), rest)
  {
    if rest == [] {
      assert first + rest == first;
    } else {
      var prior := rest[..|rest| - 1];
      AppliedAllConcat(c0, first, prior);
      assert (first + rest)[..|first + rest| - 1] == first + prior;
    }
  }

  // ---- Outside the promise ----

  /** Without any timestamp the last payload wins, so two orders can differ. */
  lemma NoTimestampsOrderMatters(a: Id, b: Id)
    requires a != b
    ensures
      var p, q := Payload(None, map[], [a], []), Payload(None, map[], [b], []);
      AppliedAll(STUB, [p, q]).cwes == {b} && AppliedAll(STUB, [q, p]).cwes == {a}
  {
    var p, q := Payload(None, map[], [a], []), Payload(None, map[], [b], []);
    UnstampedLastWins(STUB, [p, q]);
    UnstampedLastWins(STUB, [q, p]);
  }

  const JAN1: Stamp := Stamp("2026" + "0101T000000", Some(1))
  const JAN2: Stamp := Stamp("2026-" + "01-02T00:00:00", Some(2))
  const BROKEN: Stamp := Stamp("2026" + "-13", None)

  /** One unparseable stamp can make the comparison cyclic. */
  lemma UnparseableStampCycles()
    ensures IsNewer(Some(JAN2), Some(JAN1)) && IsNewer(Some(BROKEN), Some(JAN2)) && IsNewer(Some(JAN1), Some(BROKEN))
    ensures !IsNewer(Some(BROKEN), Some(JAN1))
  {
    LtPrefix("2026-", "01-02T00:00:00", "13");
    LtPrefix("2026", "-13", "0101T000000");
    assert "2026" + "-13" == "2026-" + "13";
    Trichotomy(JAN1.text, BROKEN.text);
  }

  function Carrying(s: Stamp, cwe: Id): Payload {
    Payload(Some(s), map[], [cwe], [])
  }

  /** And then the order decides, although each payload carries a different stamp. */
  lemma UnparseableStampOrderMatters(a: Id, b: Id, x: Id)
    ensures
      var p1, p2, broken := Carrying(JAN1, a), Carrying(JAN2, b), Carrying(BROKEN, x);
      && AppliedAll(STUB, [p2, broken, p1]).cwes == {a} && AppliedAll(STUB, [p1, broken, p2]).cwes == {b}
  {
    var p1, p2, broken := Carrying(JAN1, a), Carrying(JAN2, b), Carrying(BROKEN, x);
    UnparseableStampCycles();
    ThreeApplied(p2, broken, p1);
    ThreeApplied(p1, broken, p2);
  }

  lemma ThreeApplied(p: Payload, q: Payload, r: Payload)
    ensures AppliedAll(STUB, [p, q, r]) == Applied(Applied(Applied(STUB, p), q), r)
  {
    assert [p, q, r][..2] == [p, q] && [p, q][..1] == [p] && [p][..0] == [];
    assert AppliedAll(STUB, [p]) == Applied(AppliedAll(STUB, []), p);
    assert AppliedAll(STUB, [p, q]) == Applied(AppliedAll(STUB, [p]), q);
  }
}
