/** Version comparison and the range test of one CPEMatch record. */
module Versions {
  import opened Options
  import opened Ordering

  // ---- Strings ----

  predicate IsDigit(c: char) {
    '0' <= c <= '9'
  }

  /** Python's `isdigit`, over ASCII: not empty and every character a digit. */
  predicate AllDigits(s: string) {
    s != [] && forall i :: 0 <= i < |s| ==> IsDigit(s[i])
  }

  /** `int(s)` of a digit string. */
  function Value(s: string): nat {
    if s == [] then 0
    else 10 * Value(s[..|s| - 1]) + if IsDigit(s[|s| - 1]) then (s[|s| - 1] - '0') as nat else 0
  }

  /** `s.split(".")`. */
  function SplitDots(s: string): (parts: seq<string>)
    ensures parts != []
  {
    if s == [] then [[]]
    else
      var rest := SplitDots(s[1..]);
      if s[0] == '.' then [[]] + rest
      else [[s[0]] + rest[0]] + rest[1..]
  }

  // ---- Comparison ----

  function CompareInts(a: int, b: int): int {
    if a < b then -1 else if a > b then 1 else 0
  }

  function CompareStrings(a: string, b: string): int {
    if Lt(a, b) then -1 else if Lt(b, a) then 1 else 0
  }

  function CompareComponent(x: string, y: string): int {
    if AllDigits(x) && AllDigits(y) then CompareInts(Value(x), Value(y))
    else CompareStrings(x, y)
  }

  const ZERO: string := "0"

  function Head(parts: seq<string>): string {
    if parts == [] then ZERO else parts[0]
  }

  function Tail(parts: seq<string>): seq<string> {
    if parts == [] then [] else parts[1..]
  }

  /** The loop over `zip_longest(a, b, fillvalue="0")`. */
  function CompareParts(a: seq<string>, b: seq<string>): int
    decreases |a| + |b|
  {
    if a == [] && b == [] then 0
    else
      var c := CompareComponent(Head(a), Head(b));
      if c != 0 then c else CompareParts(Tail(a), Tail(b))
  }

  function VersionCompare(a: string, b: string): int {
    CompareParts(SplitDots(a), SplitDots(b))
  }

  // ---- Antisymmetry, on all strings ----

  lemma ComponentAntisymmetric(x: string, y: string)
    ensures CompareComponent(x, y) == -CompareComponent(y, x)
    ensures CompareComponent(x, x) == 0
  {
    Trichotomy(x, y);
    Trichotomy(x, x);
  }

  lemma {:induction false} PartsAntisymmetric(a: seq<string>, b: seq<string>)
    ensures CompareParts(a, b) == -CompareParts(b, a)
    decreases |a| + |b|
  {
    if a != [] || b != [] {
      ComponentAntisymmetric(Head(a), Head(b));
      PartsAntisymmetric(Tail(a), Tail(b));
    }
  }

  lemma CompareAntisymmetric(a: string, b: string)
    ensures VersionCompare(a, b) == -VersionCompare(b, a)
    ensures VersionCompare(a, a) == 0
  {
    PartsAntisymmetric(SplitDots(a), SplitDots(b));
    PartsAntisymmetric(SplitDots(a), SplitDots(a));
  }

  // ---- Versions on which the comparison is an order ----

  /** Sorts before every digit string: empty, or starting before '0'. */
  predicate BelowDigits(x: string) {
    x == [] || x[0] < '0'
  }

  /** Sorts after every digit string: nines, if any, followed by something after '9'. */
  predicate AboveDigits(x: string) {
    x != [] && (x[0] > '9' || (x[0] == '9' && AboveDigits(x[1..])))
  }

  predicate Orderly(x: string) {
    AllDigits(x) || BelowDigits(x) || AboveDigits(x)
  }

  predicate OrderlyParts(parts: seq<string>) {
    forall i :: 0 <= i < |parts| ==> Orderly(parts[i])
  }

  /** Every component is a number or sorts on one side of all numbers. */
  predicate OrderlyVersion(version: string) {
    OrderlyParts(SplitDots(version))
  }

  predicate Numeric(version: string) {
    forall i :: 0 <= i < |SplitDots(version)| ==> AllDigits(SplitDots(version)[i])
  }

  lemma NumericIsOrderly(version: string)
    requires Numeric(version)
    ensures OrderlyVersion(version)
  {
  }

  lemma BelowEveryDigits(x: string, n: string)
    requires BelowDigits(x) && n != [] && IsDigit(n[0])
    ensures Lt(x, n)
  {
  }

  lemma {:induction false} AboveEveryDigits(x: string, n: string)
    requires AboveDigits(x) && forall i :: 0 <= i < |n| ==> IsDigit(n[i])
    ensures Lt(n, x)
  {
    if n != [] && n[0] == x[0] {
      AboveEveryDigits(x[1..], n[1..]);
    }
  }

  /** 0 below the numbers, 1 for the numbers, 2 above them. */
  function Side(x: string): nat
    requires Orderly(x)
  {
    if AllDigits(x) then 1 else if BelowDigits(x) then 0 else 2
  }

  lemma SidesDecide(x: string, y: string)
    requires Orderly(x) && Orderly(y) && Side(x) < Side(y)
    ensures CompareComponent(x, y) == -1
  {
    if Side(x) == 1 {
      AboveEveryDigits(y, x);
    } else if Side(y) == 1 {
      BelowEveryDigits(x, y);
    }
  }

  lemma ComponentTransitive(x: string, y: string, z: string)
    requires Orderly(x) && Orderly(y) && Orderly(z)
    requires CompareComponent(x, y) <= 0 && CompareComponent(y, z) <= 0
    ensures CompareComponent(x, z) <= 0
    ensures CompareComponent(x, z) == 0 <==> CompareComponent(x, y) == 0 && CompareComponent(y, z) == 0
  {
    ComponentAntisymmetric(x, y);
    ComponentAntisymmetric(y, z);
    if Side(y) < Side(x) { SidesDecide(y, x); }
    if Side(z) < Side(y) { SidesDecide(z, y); }
    if Side(x) < Side(z) {
      SidesDecide(x, z);
      if Side(x) < Side(y) { SidesDecide(x, y); } else { SidesDecide(y, z); }
    } else {
      StrictTotalOrder();
    }
  }

  lemma {:induction false} PartsTransitive(a: seq<string>, b: seq<string>, c: seq<string>)
    requires OrderlyParts(a) && OrderlyParts(b) && OrderlyParts(c)
    requires CompareParts(a, b) <= 0 && CompareParts(b, c) <= 0
    ensures CompareParts(a, c) <= 0
    ensures CompareParts(a, c) == 0 <==> CompareParts(a, b) == 0 && CompareParts(b, c) == 0
    decreases |a| + |b| + |c|
  {
    if a != [] || b != [] || c != [] {
      assert Orderly(Head(a)) && Orderly(Head(b)) && Orderly(Head(c));
      HeadFirst(a, b);
      HeadFirst(b, c);
      HeadFirst(a, c);
      ComponentTransitive(Head(a), Head(b), Head(c));
      if CompareComponent(Head(a), Head(c)) == 0 {
        PartsTransitive(Tail(a), Tail(b), Tail(c));
      }
    }
  }

  /** The comparison of two lists, also when both have run out. */
  lemma HeadFirst(a: seq<string>, b: seq<string>)
    ensures CompareParts(a, b) ==
      if CompareComponent(Head(a), Head(b)) != 0 then CompareComponent(Head(a), Head(b))
      else CompareParts(Tail(a), Tail(b))
  {
    ComponentAntisymmetric(ZERO, ZERO);
  }

  /** On orderly versions, numeric ones among them, the comparison is a total preorder. */
  lemma OrderlyPreorder(a: string, b: string, c: string)
    requires OrderlyVersion(a) && OrderlyVersion(b) && OrderlyVersion(c)
    ensures VersionCompare(a, b) <= 0 || VersionCompare(b, a) <= 0
    ensures VersionCompare(a, b) <= 0 && VersionCompare(b, c) <= 0 ==> VersionCompare(a, c) <= 0
    ensures VersionCompare(a, b) < 0 && VersionCompare(b, c) <= 0 ==> VersionCompare(a, c) < 0
    ensures VersionCompare(a, b) <= 0 && VersionCompare(b, c) < 0 ==> VersionCompare(a, c) < 0
    ensures VersionCompare(a, b) == 0 && VersionCompare(b, c) == 0 ==> VersionCompare(a, c) == 0
  {
    CompareAntisymmetric(a, b);
    if VersionCompare(a, b) <= 0 && VersionCompare(b, c) <= 0 {
      PartsTransitive(SplitDots(a), SplitDots(b), SplitDots(c));
    }
  }

  // ---- And exactly those: any other component breaks it ----

  /** Two numbers between which `x` sorts the wrong way round: `a` is at most `b`, yet `b`
      sorts before `x` and `x` before `a`. */
  ghost predicate Straddles(x: string, a: string, b: string) {
    && AllDigits(a) && AllDigits(b)
    && CompareComponent(a, b) <= 0 && CompareComponent(b, x) < 0 && CompareComponent(x, a) < 0
  }

  lemma StraddlesByText(x: string, a: string, b: string)
    requires AllDigits(a) && AllDigits(b) && !AllDigits(x)
    requires Value(a) <= Value(b) && Lt(b, x) && Lt(x, a)
    ensures Straddles(x, a, b)
  {
    Trichotomy(b, x);
    Trichotomy(x, a);
  }

  /** `x` without its leading digits. */
  function AfterDigits(x: string): string {
    if x != [] && IsDigit(x[0]) then AfterDigits(x[1..]) else x
  }

  function LeadingDigits(x: string): string {
    if x != [] && IsDigit(x[0]) then [x[0]] + LeadingDigits(x[1..]) else []
  }

  lemma {:induction false} DigitsThenRest(x: string)
    ensures x == LeadingDigits(x) + AfterDigits(x)
    ensures forall i :: 0 <= i < |LeadingDigits(x)| ==> IsDigit(LeadingDigits(x)[i])
    ensures AfterDigits(x) != [] ==> !IsDigit(AfterDigits(x)[0])
  {
    if x != [] && IsDigit(x[0]) {
      DigitsThenRest(x[1..]);
      assert x == [x[0]] + x[1..];
    }
  }

  function Repeat(c: char, n: nat): string {
    seq(n, i => c)
  }

  lemma {:induction false} ValueAppend(s: string, t: string)
    requires (forall i :: 0 <= i < |s| ==> IsDigit(s[i])) && forall i :: 0 <= i < |t| ==> IsDigit(t[i])
    ensures Value(s + t) >= Value(s) && Value(s + t) >= Value(t)
  {
    if t == [] {
      assert s + t == s;
    } else {
      ValueAppend(s, t[..|t| - 1]);
      assert (s + t)[..|s + t| - 1] == s + t[..|t| - 1];
    }
  }

  /** A number written as enough ones exceeds any given one. */
  lemma {:induction false} OnesReach(n: nat)
    ensures Value(Repeat('1', n)) >= n
  {
    if n > 0 {
      OnesReach(n - 1);
      assert Repeat('1', n)[..n - 1] == Repeat('1', n - 1);
    }
  }

  lemma {:induction false} ZeroValue(s: string)
    requires forall i :: 0 <= i < |s| ==> s[i] == '0'
    ensures Value(s) == 0
  {
    if s != [] {
      ZeroValue(s[..|s| - 1]);
    }
  }

  /** A component that is no number and sorts on neither side of all numbers breaks the order. */
  lemma UnorderlyStraddles(x: string) returns (a: string, b: string)
    requires !Orderly(x)
    ensures Straddles(x, a, b)
  {
    var q, rest := LeadingDigits(x), AfterDigits(x);
    DigitsThenRest(x);
    assert rest == [] ==> x == q;
    if rest[0] > '9' {
      a, b := HighRestStraddles(x, q, rest);
    } else if exists i :: 0 <= i < |q| && q[i] != '0' {
      a, b := LowRestStraddles(x, q, rest);
    } else {
      a, b := q + "0", q;
      LtPrefix(q, rest, "0");
      LtPrefix(q, [], rest);
      assert q + [] == q;
      ZeroValue(a);
      ZeroValue(b);
      StraddlesByText(x, a, b);
    }
  }

  /** As in "1a": its digits with ones appended stay below it and grow without bound. */
  lemma HighRestStraddles(x: string, q: string, rest: string) returns (a: string, b: string)
    requires !Orderly(x) && q == LeadingDigits(x) && rest == AfterDigits(x) && x == q + rest
    requires AllDigits(q) && rest != [] && rest[0] > '9'
    ensures Straddles(x, a, b)
  {
    a := DigitsAbove(x);
    var ones := Repeat('1', Value(a));
    b := q + ones;
    OnesReach(Value(a));
    ValueAppend(q, ones);
    LtPrefix(q, ones, rest);
    StraddlesByText(x, a, b);
  }

  /** As in "10-rc": a digit lowered, anything after it stays below. */
  lemma LowRestStraddles(x: string, q: string, rest: string) returns (a: string, b: string)
    requires !AllDigits(x) && x == q + rest && AllDigits(q) && rest != [] && rest[0] < '0'
    requires exists i :: 0 <= i < |q| && q[i] != '0'
    ensures Straddles(x, a, b)
  {
    var i :| 0 <= i < |q| && q[i] != '0';
    a := q + "0";
    LtPrefix(q, rest, "0");
    b := LoweredAt(x, q, i, Value(a));
    StraddlesByText(x, a, b);
  }

  /** A number of at least `n` below `x`. */
  lemma LoweredAt(x: string, q: string, i: nat, n: nat) returns (b: string)
    requires i < |q| <= |x| && q == x[..|q|] && q[i] > '0' && AllDigits(q)
    ensures AllDigits(b) && Value(b) >= n && Lt(b, x)
  {
    var front, ones := q[..i] + "0", Repeat('1', n);
    b := front + ones;
    BelowAt(x, q, i, ones);
    assert b == q[..i] + ("0" + ones);
    OnesReach(n);
    ValueAppend(front, ones);
  }

  /** Lowering one digit of its front to zero gives something smaller, however it goes on. */
  lemma BelowAt(x: string, q: string, i: nat, t: string)
    requires i < |q| <= |x| && q == x[..|q|] && x[i] > '0'
    ensures Lt(q[..i] + ("0" + t), x)
  {
    assert x == q[..i] + x[i..];
    assert ("0" + t)[0] == '0' && x[i..][0] == x[i];
    LtPrefix(q[..i], "0" + t, x[i..]);
  }

  /** Some number sorts after a component that does not sort after them all. */
  lemma {:induction false} DigitsAbove(x: string) returns (a: string)
    requires !AboveDigits(x) && x != [] && IsDigit(x[0]) && AfterDigits(x) != []
    ensures AllDigits(a) && Lt(x, a)
  {
    if x[0] < '9' {
      a := "9";
    } else if x[1..] == [] || x[1..][0] < '0' {
      a := "90";
      assert a[1..] == "0";
    } else {
      a := DigitsAbove(x[1..]);
      assert (("9" + a)[1..]) == a;
      a := "9" + a;
    }
  }

  /** Trailing ".0" components do not matter. */
  lemma {:induction false} TrailingZero(parts: seq<string>)
    ensures CompareParts(parts, parts + [ZERO]) == 0
  {
    HeadFirst(parts, parts + [ZERO]);
    ComponentAntisymmetric(Head(parts), Head(parts));
    if parts != [] {
      assert Tail(parts + [ZERO]) == Tail(parts) + [ZERO];
      TrailingZero(Tail(parts));
    } else {
      assert CompareParts([], []) == 0;
    }
  }

  predicate NoDots(s: string) {
    forall i :: 0 <= i < |s| ==> s[i] != '.'
  }

  lemma {:induction false} SplitsWhole(s: string)
    requires NoDots(s)
    ensures SplitDots(s) == [s]
  {
    if s != [] {
      SplitsWhole(s[1..]);
      assert s == [s[0]] + s[1..];
    }
  }

  lemma {:induction false} SplitAppendsZero(s: string)
    ensures SplitDots(s + ".0") == SplitDots(s) + [ZERO]
  {
    if s == [] {
      SplitsWhole("0");
      assert s + ".0" == ".0" && ".0"[1..] == "0";
    } else {
      assert (s + ".0")[1..] == s[1..] + ".0";
      SplitAppendsZero(s[1..]);
    }
  }

  lemma MissingComponentIsZero(s: string)
    ensures VersionCompare(s, s + ".0") == 0
  {
    SplitAppendsZero(s);
    TrailingZero(SplitDots(s));
  }

  // ---- Numbers ----

  function Digit(d: nat): string
    requires d < 10
  {
    [('0' as int + d) as char]
  }

  /** A number as it is written. */
  function Decimal(n: nat): string {
    if n < 10 then Digit(n) else Decimal(n / 10) + Digit(n % 10)
  }

  lemma {:induction false} DecimalReads(n: nat)
    ensures AllDigits(Decimal(n)) && NoDots(Decimal(n)) && Value(Decimal(n)) == n
  {
    if n < 10 {
      assert Decimal(n)[..0] == [];
    } else {
      DecimalReads(n / 10);
      assert Decimal(n)[..|Decimal(n)| - 1] == Decimal(n / 10);
    }
  }

  /** Components that are written numbers compare as numbers, the first difference deciding. */
  lemma NumbersDecide(x: nat, y: nat, v: string, w: string)
    ensures VersionCompare(Decimal(x), Decimal(y)) == if x < y then -1 else if x > y then 1 else 0
    ensures VersionCompare(Decimal(x) + "." + v, Decimal(y) + "." + w) ==
      if x < y then -1 else if x > y then 1 else VersionCompare(v, w)
  {
    var a, b := Decimal(x), Decimal(y);
    DecimalReads(x);
    DecimalReads(y);
    SplitsWhole(a);
    SplitsWhole(b);
    HeadFirst([a], [b]);
    assert CompareParts([], []) == 0;
    SplitJoins(a, v);
    SplitJoins(b, w);
    HeadFirst([a] + SplitDots(v), [b] + SplitDots(w));
    assert Tail([a] + SplitDots(v)) == SplitDots(v) && Tail([b] + SplitDots(w)) == SplitDots(w);
  }

  lemma {:induction false} ValueOfZeroAnd(n: string)
    ensures Value("0" + n) == Value(n)
  {
    if n == [] {
      assert "0" + n == "0" && "0"[..0] == [];
    } else {
      ValueOfZeroAnd(n[..|n| - 1]);
      assert ("0" + n)[..|n|] == "0" + n[..|n| - 1];
    }
  }

  /** Leading zeros do not matter. */
  lemma LeadingZero(n: string)
    requires AllDigits(n)
    ensures VersionCompare("0" + n, n) == 0
  {
    ValueOfZeroAnd(n);
    SplitsWhole("0" + n);
    SplitsWhole(n);
    HeadFirst(["0" + n], [n]);
    assert CompareParts([], []) == 0;
  }

  // ---- The range test ----

  /** A CPEMatch row. `vulnerable` is false for a stored null as well: the row always has the
      key. An empty bound reads as no bound. */
  datatype CpeMatch = CpeMatch(
    vendor: string,
    product: string,
    vulnerable: bool,
    exact: Option<string>,
    startIncluding: Option<string>,
    startExcluding: Option<string>,
    endIncluding: Option<string>,
    endExcluding: Option<string>)

  predicate Given(bound: Option<string>) {
    bound.Some? && bound.value != []
  }

  predicate VersionSatisfies(version: string, m: CpeMatch) {
    if !m.vulnerable then false
    else if Given(m.exact) then VersionCompare(version, m.exact.value) == 0
    else if Given(m.startIncluding) && VersionCompare(version, m.startIncluding.value) < 0 then false
    else if Given(m.startExcluding) && VersionCompare(version, m.startExcluding.value) <= 0 then false
    else if Given(m.endIncluding) && VersionCompare(version, m.endIncluding.value) > 0 then false
    else if Given(m.endExcluding) && VersionCompare(version, m.endExcluding.value) >= 0 then false
    else true
  }

  predicate OrderlyBound(bound: Option<string>) {
    Given(bound) ==> OrderlyVersion(bound.value)
  }

  predicate OrderlyMatch(m: CpeMatch) {
    && OrderlyBound(m.exact) && OrderlyBound(m.startIncluding) && OrderlyBound(m.startExcluding)
    && OrderlyBound(m.endIncluding) && OrderlyBound(m.endExcluding)
  }

  /** A bound passed by a version is passed by everything on the right side of it. */
  lemma BoundMonotone(lo: string, v: string, bound: Option<string>)
    requires OrderlyVersion(lo) && OrderlyVersion(v) && OrderlyBound(bound) && VersionCompare(lo, v) <= 0
    ensures Given(bound) && VersionCompare(lo, bound.value) >= 0 ==> VersionCompare(v, bound.value) >= 0
    ensures Given(bound) && VersionCompare(lo, bound.value) > 0 ==> VersionCompare(v, bound.value) > 0
    ensures Given(bound) && VersionCompare(v, bound.value) <= 0 ==> VersionCompare(lo, bound.value) <= 0
    ensures Given(bound) && VersionCompare(v, bound.value) < 0 ==> VersionCompare(lo, bound.value) < 0
  {
    if Given(bound) {
      OrderlyPreorder(lo, v, bound.value);
      OrderlyPreorder(bound.value, lo, v);
      CompareAntisymmetric(lo, bound.value);
      CompareAntisymmetric(v, bound.value);
    }
  }

  /** Among orderly versions the set satisfying an orderly match is convex. */
  lemma {:induction false} SatisfyingSetIsConvex(lo: string, v: string, hi: string, m: CpeMatch)
    requires OrderlyVersion(lo) && OrderlyVersion(v) && OrderlyVersion(hi) && OrderlyMatch(m)
    requires VersionCompare(lo, v) <= 0 && VersionCompare(v, hi) <= 0
    requires VersionSatisfies(lo, m) && VersionSatisfies(hi, m)
    ensures VersionSatisfies(v, m)
  {
    BoundMonotone(lo, v, m.exact);
    BoundMonotone(v, hi, m.exact);
    BoundMonotone(lo, v, m.startIncluding);
    BoundMonotone(lo, v, m.startExcluding);
    BoundMonotone(v, hi, m.endIncluding);
    BoundMonotone(v, hi, m.endExcluding);
  }

  /** Equal orderly versions satisfy the same matches. */
  lemma EqualVersionsSatisfyAlike(a: string, b: string, m: CpeMatch)
    requires OrderlyVersion(a) && OrderlyVersion(b) && OrderlyMatch(m) && VersionCompare(a, b) == 0
    ensures VersionSatisfies(a, m) <==> VersionSatisfies(b, m)
  {
    CompareAntisymmetric(a, b);
    if VersionSatisfies(a, m) {
      SatisfyingSetIsConvex(a, b, a, m);
    }
    if VersionSatisfies(b, m) {
      SatisfyingSetIsConvex(b, a, b, m);
    }
  }

  // ---- Mixed components ----

  /** The first component that is not a number, if there is one, sorts on one side of all
      numbers. */
  predicate FirstMixedOrderly(parts: seq<string>) {
    if parts == [] then true
    else if AllDigits(parts[0]) then FirstMixedOrderly(parts[1..])
    else Orderly(parts[0])
  }

  /** Two numeric versions between which `x` sorts the wrong way round. */
  ghost predicate BreaksOrder(x: string) {
    exists a, b ::
      && Numeric(a) && Numeric(b)
      && VersionCompare(a, b) <= 0 && VersionCompare(b, x) < 0 && VersionCompare(x, a) < 0
  }

  /** On any version the comparison with numeric versions goes wrong if and only if its first
      component that is not a number is not orderly; later components do not matter. */
  lemma {:induction false} OrderBreaksExactly(x: string)
    ensures BreaksOrder(x) <==> !FirstMixedOrderly(SplitDots(x))
  {
    if FirstMixedOrderly(SplitDots(x)) {
      forall a, b | Numeric(a) && Numeric(b) && VersionCompare(a, b) <= 0 && VersionCompare(b, x) < 0
        ensures VersionCompare(x, a) >= 0
      {
        NoStraddle(a, b, x);
        CompareAntisymmetric(x, a);
      }
    } else {
      var a, b := StraddlingVersions(SplitDots(x));
      assert VersionCompare(a, b) <= 0 && VersionCompare(b, x) < 0;
    }
  }

  /** A version up to its first component that is not a number. */
  function Cut(parts: seq<string>): seq<string> {
    if parts == [] then []
    else if AllDigits(parts[0]) then [parts[0]] + Cut(parts[1..])
    else [parts[0]]
  }

  lemma {:induction false} CutIsOrderly(parts: seq<string>)
    requires FirstMixedOrderly(parts)
    ensures OrderlyParts(Cut(parts))
  {
    if parts != [] && AllDigits(parts[0]) {
      CutIsOrderly(parts[1..]);
    }
  }

  /** An orderly component that is no number decides against any number. */
  lemma MixedDecides(n: string, y: string)
    requires AllDigits(n) && Orderly(y) && !AllDigits(y)
    ensures CompareComponent(n, y) != 0
  {
    ComponentAntisymmetric(n, y);
    if Side(y) == 0 { SidesDecide(y, n); } else { SidesDecide(n, y); }
  }

  lemma {:induction false} CutDecides(n: seq<string>, parts: seq<string>)
    requires (forall i :: 0 <= i < |n| ==> AllDigits(n[i])) && FirstMixedOrderly(parts)
    ensures CompareParts(n, Cut(parts)) == CompareParts(n, parts)
    decreases |parts|
  {
    if parts != [] {
      HeadFirst(n, Cut(parts));
      HeadFirst(n, parts);
      if AllDigits(parts[0]) {
        CutDecides(Tail(n), parts[1..]);
      } else {
        assert AllDigits(Head(n));
        MixedDecides(Head(n), parts[0]);
      }
    }
  }

  lemma NoStraddle(a: string, b: string, x: string)
    requires Numeric(a) && Numeric(b) && FirstMixedOrderly(SplitDots(x))
    ensures VersionCompare(a, b) <= 0 && VersionCompare(b, x) <= 0 ==> VersionCompare(a, x) <= 0
    ensures VersionCompare(a, b) <= 0 && VersionCompare(b, x) < 0 ==> VersionCompare(a, x) < 0
    ensures VersionCompare(x, a) <= 0 && VersionCompare(a, b) <= 0 ==> VersionCompare(x, b) <= 0
    ensures VersionCompare(x, a) < 0 && VersionCompare(a, b) <= 0 ==> VersionCompare(x, b) < 0
  {
    var p, q, r := SplitDots(a), SplitDots(b), Cut(SplitDots(x));
    CutIsOrderly(SplitDots(x));
    CutDecides(p, SplitDots(x));
    CutDecides(q, SplitDots(x));
    CompareAntisymmetric(x, a);
    CompareAntisymmetric(x, b);
    PartsAntisymmetric(r, p);
    PartsAntisymmetric(r, q);
    if VersionCompare(a, b) <= 0 && VersionCompare(b, x) <= 0 {
      PartsTransitive(p, q, r);
    }
    if VersionCompare(x, a) <= 0 && VersionCompare(a, b) <= 0 {
      PartsTransitive(r, p, q);
    }
  }

  /** The straddling numbers of the first component that is not orderly, behind the numbers
      that come before it. */
  lemma {:induction false} StraddlingVersions(parts: seq<string>) returns (a: string, b: string)
    requires !FirstMixedOrderly(parts)
    ensures Numeric(a) && Numeric(b) && CompareParts(SplitDots(a), SplitDots(b)) <= 0
    ensures CompareParts(SplitDots(b), parts) < 0 && CompareParts(parts, SplitDots(a)) < 0
    decreases |parts|
  {
    var first, rest := parts[0], parts[1..];
    if AllDigits(first) {
      a, b := StraddlingVersions(rest);
      SameHead(first, SplitDots(a), SplitDots(b));
      SameHead(first, SplitDots(b), rest);
      SameHead(first, rest, SplitDots(a));
      assert parts == [first] + rest;
      a, b := Prefixed(first, a), Prefixed(first, b);
    } else {
      a, b := UnorderlyStraddles(first);
      WholeNumber(a);
      WholeNumber(b);
      HeadFirst([a], [b]);
      HeadFirst([b], parts);
      HeadFirst(parts, [a]);
      assert CompareParts([], []) == 0;
    }
  }

  lemma SameHead(x: string, p: seq<string>, q: seq<string>)
    ensures CompareParts([x] + p, [x] + q) == CompareParts(p, q)
  {
    ComponentAntisymmetric(x, x);
    HeadFirst([x] + p, [x] + q);
    assert Tail([x] + p) == p && Tail([x] + q) == q;
  }

  /** A number put before a numeric version. */
  function Prefixed(n: string, version: string): (r: string)
    requires AllDigits(n) && Numeric(version)
    ensures SplitDots(r) == [n] + SplitDots(version) && Numeric(r)
  {
    SplitJoins(n, version);
    n + "." + version
  }

  lemma {:induction false} SplitJoins(s: string, t: string)
    requires NoDots(s)
    ensures SplitDots(s + "." + t) == [s] + SplitDots(t)
  {
    var whole := s + "." + t;
    if s == [] {
      assert whole[1..] == t;
    } else {
      assert whole[1..] == s[1..] + "." + t;
      SplitJoins(s[1..], t);
      assert s == [s[0]] + s[1..];
    }
  }

  lemma WholeNumber(a: string)
    requires AllDigits(a)
    ensures Numeric(a) && SplitDots(a) == [a]
  {
    SplitsWhole(a);
  }

  /** With a mixed component the comparison is not transitive: 2 < 10 < 1a < 2. */
  lemma MixedComponentsCycle()
    ensures VersionCompare("2", "10") < 0
    ensures VersionCompare("10", "1a") < 0
    ensures VersionCompare("1a", "2") < 0
  {
    SplitsWhole("2");
    SplitsWhole("10");
    SplitsWhole("1a");
    assert Value("2") == 10 * Value([]) + 2;
    assert "10"[..1] == "1" && Value("1") == 1 && Value("10") == 10;
    assert AllDigits("2") && AllDigits("10");
    assert !AllDigits("1a") by { assert !IsDigit("1a"[1]); }
    assert "10"[1..] == "0" && "1a"[1..] == "a";
    assert Lt("0", "a");
    assert Lt("10", "1a");
    assert Lt("1a", "2");
  }

  /** One bound and nothing else: `bound` from below or from above, included or excluded. */
  function OneBound(bound: string, lower: bool, including: bool): CpeMatch {
    CpeMatch("", "", true, None,
             if lower && including then Some(bound) else None, if lower && !including then Some(bound) else None,
             if !lower && including then Some(bound) else None, if !lower && !including then Some(bound) else None)
  }

  /** A bound that is included admits itself and one that is excluded does not, from either
      side; with or without a trailing ".0". */
  lemma BoundAdmitsItself(bound: string, lower: bool, including: bool)
    requires bound != []
    ensures VersionSatisfies(bound, OneBound(bound, lower, including)) <==> including
    ensures VersionSatisfies(bound + ".0", OneBound(bound, lower, including)) <==> including
  {
    CompareAntisymmetric(bound, bound);
    CompareAntisymmetric(bound + ".0", bound);
    MissingComponentIsZero(bound);
  }

  /** A pin admits what compares equal to it and nothing else, whatever range stands beside it. */
  lemma PinAdmitsExactly(bound: string, m: CpeMatch)
    requires bound != [] && m.vulnerable && m.exact == Some(bound)
    ensures VersionSatisfies(bound, m) && VersionSatisfies(bound + ".0", m)
    ensures forall v :: VersionSatisfies(v, m) <==> VersionCompare(bound, v) == 0
  {
    MissingComponentIsZero(bound);
    CompareAntisymmetric(bound + ".0", bound);
    forall v ensures VersionCompare(bound, v) == 0 <==> VersionCompare(v, bound) == 0 {
      CompareAntisymmetric(bound, v);
    }
    CompareAntisymmetric(bound, bound);
  }

  predicate AdmittedBy(v: string, bound: Option<string>, lower: bool, including: bool) {
    bound.Some? && bound.value != [] ==> VersionSatisfies(v, OneBound(bound.value, lower, including))
  }

  /** A record without a pin admits a version exactly when it is vulnerable and each bound it
      gives does by itself; an empty text is no bound. */
  lemma RangeIsConjunction(v: string, m: CpeMatch)
    requires m.exact.None? || m.exact == Some("")
    ensures VersionSatisfies(v, m) <==>
      && m.vulnerable
      && AdmittedBy(v, m.startIncluding, true, true) && AdmittedBy(v, m.startExcluding, true, false)
      && AdmittedBy(v, m.endIncluding, false, true) && AdmittedBy(v, m.endExcluding, false, false)
  {
  }

  /** Some numeric version is admitted while one further inside the range is refused. */
  ghost predicate HasHole(bound: string, lower: bool, including: bool) {
    exists lo, hi :: Numeric(lo) && Numeric(hi) && VersionCompare(lo, hi) <= 0 &&
      var inner, outer := if lower then hi else lo, if lower then lo else hi;
      VersionSatisfies(outer, OneBound(bound, lower, including)) &&
      !VersionSatisfies(inner, OneBound(bound, lower, including))
  }

  /** The range of one bound has a hole if and only if the first component of the bound that is
      not a number is not on one side of all numbers. */
  lemma {:induction false} HolesExactly(bound: string, lower: bool, including: bool)
    requires bound != []
    ensures HasHole(bound, lower, including) <==> !FirstMixedOrderly(SplitDots(bound))
  {
    OrderBreaksExactly(bound);
    if FirstMixedOrderly(SplitDots(bound)) {
      forall lo, hi | Numeric(lo) && Numeric(hi) && VersionCompare(lo, hi) <= 0
        ensures
          var inner, outer := if lower then hi else lo, if lower then lo else hi;
          VersionSatisfies(outer, OneBound(bound, lower, including)) ==>
            VersionSatisfies(inner, OneBound(bound, lower, including))
      {
        NoStraddle(lo, hi, bound);
        CompareAntisymmetric(lo, bound);
        CompareAntisymmetric(hi, bound);
      }
    } else {
      var lo, hi :| Numeric(lo) && Numeric(hi) && VersionCompare(lo, hi) <= 0 &&
                    VersionCompare(hi, bound) < 0 && VersionCompare(bound, lo) < 0;
      CompareAntisymmetric(lo, bound);
      var inner, outer := if lower then hi else lo, if lower then lo else hi;
      assert VersionSatisfies(outer, OneBound(bound, lower, including));
      assert !VersionSatisfies(inner, OneBound(bound, lower, including));
    }
  }

  /** So a range can have a hole: 2 and 1a meet "at least 1a", 10 lies above 2 and does not. */
  lemma MixedRangeHasHole()
    ensures exists m: CpeMatch ::
      && VersionSatisfies("2", m) && VersionCompare("2", "10") < 0 && !VersionSatisfies("10", m)
      && m.endIncluding.None? && m.endExcluding.None?
  {
    MixedComponentsCycle();
    CompareAntisymmetric("1a", "2");
    var m := CpeMatch("", "", true, None, Some("1a"), None, None, None);
    assert VersionSatisfies("2", m) && !VersionSatisfies("10", m);
  }
}
