/** The noisy-OR arithmetic, over the reals, and its order-free form over a map. */
module Formulas {
  import opened Ordering

  function Clamp01(x: real): real {
    if x < 0.0 then 0.0 else if x > 1.0 then 1.0 else x
  }

  /** Multiplication under a name, so that equal factors give equal products by congruence. */
  function Times(a: real, b: real): real {
    a * b
  }

  /** The product of `1 - clamp01(s)` over a list. */
  function Complement(scores: seq<real>): real {
    if scores == [] then 1.0
    else Times(1.0 - Clamp01(scores[0]), Complement(scores[1..]))
  }

  function Combined(scores: seq<real>): real {
    Clamp01(1.0 - Complement(scores))
  }

  method NoisyOr(contributions: seq<real>) returns (r: real)
    ensures r == Combined(contributions)
  {
    var complement := 1.0;
    for i := 0 to |contributions|
      invariant Times(complement, Complement(contributions[i..])) == Complement(contributions)
    {
      TimesAssociates(complement, 1.0 - Clamp01(contributions[i]), Complement(contributions[i + 1..]));
      assert contributions[i..][1..] == contributions[i + 1..];
      complement := Times(complement, 1.0 - Clamp01(contributions[i]));
    }
    return Clamp01(1.0 - complement);
  }

  lemma TimesAssociates(a: real, b: real, c: real)
    ensures Times(a, Times(b, c)) == Times(Times(a, b), c)
  {
    assert a * (b * c) == (a * b) * c;
  }

  // ---- The same product indexed by a map's keys, in no particular order ----

  type Contributions = map<Id, real>

  ghost function Pick(m: Contributions): Id
    requires m != map[]
    ensures Pick(m) in m
  {
    var k :| k in m; k
  }

  /** The product of `1 - m[k]` over every key. */
  ghost function Residual(m: Contributions): real
    decreases |m|
  {
    if m == map[] then 1.0
    else
      var k := Pick(m);
      Times(1.0 - m[k], Residual(m - {k}))
  }

  ghost function NoisyOrOf(m: Contributions): real {
    1.0 - Residual(m)
  }

  ghost predicate InUnit(m: Contributions) {
    forall k :: k in m ==> 0.0 <= m[k] <= 1.0
  }

  lemma TimesSwap(a: real, b: real, c: real)
    ensures Times(a, Times(b, c)) == Times(b, Times(a, c))
  {
    assert a * (b * c) == b * (a * c);
  }

  /** Any key may be taken out first: the product does not depend on an order. */
  lemma {:induction false} ResidualSplit(m: Contributions, k: Id)
    requires k in m
    ensures Residual(m) == Times(1.0 - m[k], Residual(m - {k}))
    decreases |m|
  {
    var j := Pick(m);
    if j != k {
      var mj, mk := m - {j}, m - {k};
      ResidualSplit(mj, k);
      ResidualSplit(mk, j);
      assert mj - {k} == mk - {j};
      var rest := Residual(mj - {k});
      TimesSwap(1.0 - m[j], 1.0 - m[k], rest);
    }
  }

  lemma ResidualExtend(m: Contributions, k: Id, x: real)
    requires k !in m
    ensures Residual(m[k := x]) == Times(1.0 - x, Residual(m))
  {
    var m' := m[k := x];
    ResidualSplit(m', k);
    assert m' - {k} == m;
  }

  lemma {:induction false} ResidualInUnit(m: Contributions)
    requires InUnit(m)
    ensures 0.0 <= Residual(m) <= 1.0
    decreases |m|
  {
    if m != map[] {
      var k := Pick(m);
      ResidualInUnit(m - {k});
      ProductInUnit(1.0 - m[k], Residual(m - {k}));
    }
  }

  lemma Scale(k: real, a: real, b: real)
    requires 0.0 <= k && a <= b
    ensures k * a <= k * b
  {
    assert 0.0 <= k * (b - a);
  }

  lemma ProductMonotone(a: real, b: real, c: real, d: real)
    requires 0.0 <= a <= b && 0.0 <= c <= d
    ensures Times(a, c) <= Times(b, d)
  {
    Scale(c, a, b);
    Scale(b, c, d);
    assert a * c == c * a && b * c == c * b;
  }

  lemma ProductInUnit(a: real, b: real)
    requires 0.0 <= a <= 1.0 && 0.0 <= b <= 1.0
    ensures 0.0 <= Times(a, b) <= a
  {
    ProductMonotone(0.0, a, 0.0, b);
    ProductMonotone(a, a, b, 1.0);
  }

  ghost predicate Below(m: Contributions, n: Contributions) {
    forall k :: k in m ==> k in n && m[k] <= n[k]
  }

  /** Raising a contribution or adding one never lowers the noisy-OR. */
  lemma {:induction false} NoisyOrMonotone(m: Contributions, n: Contributions)
    requires InUnit(m) && InUnit(n) && Below(m, n)
    ensures NoisyOrOf(m) <= NoisyOrOf(n)
    ensures 0.0 <= NoisyOrOf(m) && NoisyOrOf(n) <= 1.0
    decreases |n|
  {
    ResidualInUnit(m);
    ResidualInUnit(n);
    if n == map[] {
      assert m == map[];
    } else {
      var k := Pick(n);
      NoisyOrMonotone(m - {k}, n - {k});
      ResidualInUnit(n - {k});
      if k in m {
        ResidualSplit(m, k);
        ProductMonotone(1.0 - n[k], 1.0 - m[k], Residual(n - {k}), Residual(m - {k}));
      } else {
        assert m - {k} == m;
        ProductMonotone(1.0 - n[k], 1.0, Residual(n - {k}), Residual(m));
      }
    }
  }

  // ---- From the stored parallel lists to the map ----

  function ScoresAt(m: Contributions, keys: seq<Id>): (r: seq<real>)
    requires forall k :: k in keys ==> k in m
    ensures |r| == |keys| && forall i :: 0 <= i < |keys| ==> r[i] == m[keys[i]]
  {
    seq(|keys|, i requires 0 <= i < |keys| => m[keys[i]])
  }

  /** The scores in the order of the sorted cluster ids: what is stored beside them. */
  function Listed(m: Contributions): seq<real> {
    ScoresAt(m, Sorted(m.Keys))
  }

  lemma ListedSplit(m: Contributions)
    requires m != map[]
    ensures var k := Min(m.Keys); Listed(m) == [m[k]] + Listed(m - {k})
  {
    var k := Min(m.Keys);
    var rest := Sorted(m.Keys - {k});
    assert (m - {k}).Keys == m.Keys - {k};
    assert Sorted(m.Keys) == [k] + rest;
    ScoresPrepend(m, k, rest);
  }

  lemma ScoresPrepend(m: Contributions, k: Id, rest: seq<Id>)
    requires k in m && forall x :: x in rest <==> x in m - {k}
    ensures forall x :: x in [k] + rest ==> x in m
    ensures ScoresAt(m, [k] + rest) == [m[k]] + ScoresAt(m - {k}, rest)
  {
    assert forall i :: 0 <= i < |rest| ==> rest[i] in rest;
  }

  lemma ComplementPrepend(x: real, rest: seq<real>)
    ensures Complement([x] + rest) == Times(1.0 - Clamp01(x), Complement(rest))
  {
    assert ([x] + rest)[1..] == rest;
  }

  /** The source's noisy-OR of the sorted list is the order-free one of the map. */
  lemma {:induction false} ComplementIsResidual(m: Contributions)
    requires InUnit(m)
    ensures Complement(Listed(m)) == Residual(m)
    decreases |m|
  {
    if m == map[] {
      assert Listed(m) == [];
    } else {
      var k := Min(m.Keys);
      ListedSplit(m);
      ComplementPrepend(m[k], Listed(m - {k}));
      ComplementIsResidual(m - {k});
      ResidualSplit(m, k);
    }
  }

  lemma CombinedIsNoisyOr(m: Contributions)
    requires InUnit(m)
    ensures Combined(Listed(m)) == NoisyOrOf(m)
    ensures 0.0 <= NoisyOrOf(m) <= 1.0
  {
    ComplementIsResidual(m);
    ResidualInUnit(m);
  }
}
