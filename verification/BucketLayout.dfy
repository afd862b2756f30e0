// How the three kinds of histogram lay out their buckets.

module BucketLayout {

  const SAMPLE_MAX: int := 0x7fff_ffff

  function Pow(b: int, k: nat): int {
    if k == 0 then 1 else b * Pow(b, k - 1)
  }

  lemma {:induction false} PowMonotone(a: int, b: int, k: nat)
    requires 0 <= a <= b
    ensures 0 <= Pow(a, k) <= Pow(b, k)
    ensures 1 <= a ==> 1 <= Pow(a, k)
  {
    if k > 0 {
      PowMonotone(a, b, k - 1);
      Products(a, b, Pow(a, k - 1), Pow(b, k - 1));
    }
  }

  lemma Products(a: int, b: int, x: int, y: int)
    requires 0 <= a <= b && 0 <= x <= y
    ensures 0 <= a * x <= b * y
    ensures 1 <= a && 1 <= x ==> 1 <= a * x
  {
  }

  lemma {:induction false} PowGrows(a: int, b: int, k: nat)
    requires 0 <= a < b && k >= 1
    ensures Pow(a, k) < Pow(b, k)
  {
    if k == 1 {
      assert Pow(a, 1) == a * Pow(a, 0) && Pow(b, 1) == b * Pow(b, 0);
    } else {
      PowGrows(a, b, k - 1);
      PowMonotone(a, b, k - 1);
      var x, y := Pow(a, k - 1), Pow(b, k - 1);
      assert a * x <= a * y < b * y;
    }
  }

  /** Bernoulli's inequality, scaled: a power is at least its first two terms. */
  lemma {:induction false} Bernoulli(b: int, e: int, k: nat)
    requires b >= 0 && e >= 0 && k >= 1
    ensures Pow(b, k - 1) * (b + k * e) <= Pow(b + e, k)
  {
    if k == 1 {
      assert Pow(b + e, 1) == (b + e) * Pow(b + e, 0);
    } else {
      Bernoulli(b, e, k - 1);
      PowMonotone(b, b, k - 2);
      BernoulliStep(b, e, k, Pow(b, k - 2), Pow(b + e, k - 1));
    }
  }

  lemma BernoulliStep(b: int, e: int, k: int, q: int, r: int)
    requires b >= 0 && e >= 0 && k >= 1 && q >= 0
    requires q * (b + (k - 1) * e) <= r
    ensures (b * q) * (b + k * e) <= (b + e) * r
  {
    Scale(b + e, q * (b + (k - 1) * e), r);
    Expand(b, e, k, q);
    NonNegative(q, k - 1, e);
  }

  lemma Scale(a: int, x: int, y: int)
    requires a >= 0 && x <= y
    ensures a * x <= a * y
  {
  }

  lemma NonNegative(q: int, k: int, e: int)
    requires q >= 0 && k >= 0 && e >= 0
    ensures 0 <= q * (k * e * e)
  {
  }

  lemma Expand(b: int, e: int, k: int, q: int)
    ensures (b + e) * (q * (b + (k - 1) * e)) == (b * q) * (b + k * e) + q * ((k - 1) * e * e)
  {
  }

  // ---- The exponential step ----

  /** (2c)^(k-1) * 2m: the k-th power of twice the exact next boundary
      c * (m / c)^(1/k), where k buckets remain up to m. */
  function Target(c: int, m: int, k: nat): int
    requires k >= 1
  {
    Pow(2 * c, k - 1) * (2 * m)
  }

  /** x is the integer nearest to the exact next boundary, halves rounded up. */
  predicate IsNearest(c: int, m: int, k: nat, x: int)
    requires k >= 1
  {
    Pow(2 * x - 1, k) <= Target(c, m, k) < Pow(2 * x + 1, k)
  }

  /** floor(exp(log c + (log m - log c) / k) + 0.5) over exact reals. */
  function NearestRoot(c: int, m: int, k: nat): (x: int)
    requires 1 <= c <= m && k >= 1
    ensures c <= x <= m && IsNearest(c, m, k, x)
  {
    StartsBelow(c, m, k);
    SearchUp(c, m, k, c)
  }

  function SearchUp(c: int, m: int, k: nat, x: int): (r: int)
    requires 1 <= c <= x <= m && k >= 1 && Pow(2 * x - 1, k) <= Target(c, m, k)
    ensures c <= r <= m && IsNearest(c, m, k, r)
    decreases m - x
  {
    if Target(c, m, k) < Pow(2 * x + 1, k) then x
    else
      EndsAbove(c, m, k);
      assert x < m by {
        if x == m { assert false; }
      }
      SearchUp(c, m, k, x + 1)
  }

  lemma StartsBelow(c: int, m: int, k: nat)
    requires 1 <= c <= m && k >= 1
    ensures Pow(2 * c - 1, k) <= Target(c, m, k)
  {
    PowMonotone(2 * c - 1, 2 * c, k);
    PowMonotone(2 * c, 2 * c, k - 1);
    Scale(Pow(2 * c, k - 1), 2 * c, 2 * m);
  }

  lemma EndsAbove(c: int, m: int, k: nat)
    requires 1 <= c <= m && k >= 1
    ensures Target(c, m, k) < Pow(2 * m + 1, k)
  {
    PowMonotone(2 * c, 2 * m, k - 1);
    Products(2 * m, 2 * m, Pow(2 * c, k - 1), Pow(2 * m, k - 1));
    PowGrows(2 * m, 2 * m + 1, k);
  }

  /** Only one integer is nearest. */
  lemma NearestIsUnique(c: int, m: int, k: nat, x: int, y: int)
    requires k >= 1 && 1 <= x < y && IsNearest(c, m, k, x)
    ensures !IsNearest(c, m, k, y)
  {
    PowMonotone(2 * x + 1, 2 * y - 1, k);
  }

  /** A boundary that used up the integers of the remaining k - 1 buckets would be
      beyond the exact one: the arithmetic-geometric mean bound, by Bernoulli. */
  lemma TooFar(c: int, m: int, k: nat, x: int)
    requires 1 <= c && k >= 1 && c + k <= m && x + (k - 1) > m
    ensures Target(c, m, k) < Pow(2 * x - 1, k)
  {
    var e := 2 * x - 1 - 2 * c;
    MeanBound(k, m - c, e);
    Bernoulli(2 * c, e, k);
    PowMonotone(2 * c, 2 * c, k - 1);
    StrictScale(Pow(2 * c, k - 1), 2 * m, 2 * c + k * e);
  }

  lemma StrictScale(a: int, x: int, y: int)
    requires a >= 1 && x < y
    ensures a * x < a * y
  {
  }

  /** The rounded step never uses up the integers the remaining buckets need. */
  lemma StepLeavesRoom(c: int, m: int, k: nat)
    requires 1 <= c && k >= 1 && c + k <= m
    ensures NearestRoot(c, m, k) + (k - 1) <= m
  {
    var x := NearestRoot(c, m, k);
    if x + (k - 1) > m {
      TooFar(c, m, k, x);
    }
  }

  lemma MeanBound(k: int, d: int, e: int)
    requires 1 <= k <= d && e >= 2 * (d - k + 2) - 1
    ensures k * e > 2 * d
  {
    Scale(k, 2 * (d - k) + 3, e);
    assert k * (2 * (d - k) + 3) == 2 * k * (d - k) + 3 * k;
    Scale(d - k, 1, k);
  }

  /** With one bucket to go the step lands on the maximum. */
  lemma LastStep(c: int, m: int)
    requires 1 <= c <= m
    ensures NearestRoot(c, m, 1) == m
  {
    var x := NearestRoot(c, m, 1);
    assert Pow(2 * c, 0) == 1;
    assert Pow(2 * x - 1, 1) == (2 * x - 1) * Pow(2 * x - 1, 0);
    assert Pow(2 * x + 1, 1) == (2 * x + 1) * Pow(2 * x + 1, 0);
  }

  // ---- Layouts ----

  ghost predicate StrictlyIncreasing(r: seq<int>) {
    forall i, j :: 0 <= i < j < |r| ==> r[i] < r[j]
  }

  /** The next boundary after c: the nearest root, or a narrow bucket of one. */
  function NextBoundary(c: int, m: int, k: nat): (x: int)
    requires 1 <= c && k >= 1 && c + k <= m
    ensures c < x && x + (k - 1) <= m
    ensures k == 1 ==> x == m
  {
    StepLeavesRoom(c, m, k);
    if k == 1 then LastStep(c, m); m
    else
      var next := NearestRoot(c, m, k);
      if next > c then next else c + 1
  }

  /** The arguments that the factory methods accept. */
  predicate Layable(min: int, max: int, n: nat) {
    1 <= min < max < SAMPLE_MAX && 3 <= n <= max - min + 2
  }

  /** next is the boundary that follows previous when k buckets remain up to max. */
  predicate Follows(previous: int, next: int, max: int, k: int) {
    1 <= previous && k >= 1 && previous + k <= max && next == NextBoundary(previous, max, k)
  }

  function Rule(max: int, n: int): (int, int, int) -> bool {
    (previous, next, i) => Follows(previous, next, max, n - i)
  }

  lemma RuleIsFollows(max: int, n: int, previous: int, next: int, i: int)
    ensures Rule(max, n)(previous, next, i) <==> Follows(previous, next, max, n - i)
  {
  }

  ghost predicate Chained(rule: (int, int, int) -> bool, r: seq<int>, low: nat, high: nat)
    requires 1 <= low && high <= |r|
  {
    forall i {:trigger r[i]} :: low <= i < high ==> rule(r[i - 1], r[i], i)
  }

  /** 0, then min, then each boundary from the one before, then the top sentinel. */
  ghost predicate IsExponential(r: seq<int>, min: int, max: int, n: nat)
    requires Layable(min, max, n)
  {
    && |r| == n + 1 && r[0] == 0 && r[1] == min && r[n] == SAMPLE_MAX
    && Chained(Rule(max, n), r, 2, n)
  }

  /** The loop's choice between the nearest root and a narrow bucket. */
  lemma StepIsNext(c: int, m: int, k: nat)
    requires 1 <= c && k >= 1 && c + k <= m
    ensures NextBoundary(c, m, k) == if NearestRoot(c, m, k) > c then NearestRoot(c, m, k) else c + 1
  {
    if k == 1 {
      LastStep(c, m);
    }
  }

  /** The loop has placed the boundaries below i. */
  ghost predicate LaidTo(r: seq<int>, min: int, max: int, n: nat, i: nat)
    requires Layable(min, max, n)
  {
    && |r| == n + 1 && r[0] == 0 && r[1] == min && r[n] == SAMPLE_MAX
    && 2 <= i <= n && 1 <= r[i - 1] && r[i - 1] + (n - i) <= max
    && Chained(Rule(max, n), r, 2, i)
  }

  lemma ChainedFurther(rule: (int, int, int) -> bool, r: seq<int>, low: nat, high: nat, next: int)
    requires 1 <= low <= high < |r| && Chained(rule, r, low, high) && rule(r[high - 1], next, high)
    ensures Chained(rule, r[high := next], low, high + 1)
  {
  }

  lemma LaidFurther(r: seq<int>, min: int, max: int, n: nat, i: nat, next: int)
    requires Layable(min, max, n) && LaidTo(r, min, max, n, i) && i < n
    requires next == NextBoundary(r[i - 1], max, n - i)
    ensures LaidTo(r[i := next], min, max, n, i + 1)
  {
    RuleIsFollows(max, n, r[i - 1], next, i);
    ChainedFurther(Rule(max, n), r, 2, i, next);
  }

  lemma LaidOut(r: seq<int>, min: int, max: int, n: nat)
    requires Layable(min, max, n) && LaidTo(r, min, max, n, n)
    ensures IsExponential(r, min, max, n)
  {
  }

  lemma {:induction false} IncreasingBySteps(r: seq<int>, i: nat, j: nat)
    requires i < j < |r| && forall k {:trigger r[k]} :: 1 <= k < |r| ==> r[k - 1] < r[k]
    ensures r[i] < r[j]
    decreases j
  {
    if i + 1 < j {
      IncreasingBySteps(r, i, j - 1);
    }
  }

  lemma StepsIncrease(r: seq<int>)
    requires forall k {:trigger r[k]} :: 1 <= k < |r| ==> r[k - 1] < r[k]
    ensures StrictlyIncreasing(r)
  {
    forall i, j | 0 <= i < j < |r| ensures r[i] < r[j] {
      IncreasingBySteps(r, i, j);
    }
  }

  /** Exponential buckets are never empty, begin at the minimum and end at the maximum. */
  lemma ExponentialIsSound(r: seq<int>, min: int, max: int, n: nat)
    requires Layable(min, max, n) && IsExponential(r, min, max, n)
    ensures StrictlyIncreasing(r) && r[n - 1] == max
  {
    assert Rule(max, n)(r[n - 2], r[n - 1], n - 1);
    RuleIsFollows(max, n, r[n - 2], r[n - 1], n - 1);
    forall k {:trigger r[k]} | 1 <= k < |r| ensures r[k - 1] < r[k] {
      if 2 <= k < n {
        assert Rule(max, n)(r[k - 1], r[k], k);
        RuleIsFollows(max, n, r[k - 1], r[k], k);
      }
    }
    StepsIncrease(r);
  }

  /** (min * (n-1-i) + max * (i-1)) / (n-2), rounded to the nearest integer. */
  function LinearBoundary(min: int, max: int, n: nat, i: nat): int
    requires n >= 3
  {
    (2 * (min * (n - 1 - i) + max * (i - 1)) + (n - 2)) / (2 * (n - 2))
  }

  ghost predicate IsLinear(r: seq<int>, min: int, max: int, n: nat)
    requires n >= 3
  {
    && |r| == n + 1 && r[0] == 0 && r[n] == SAMPLE_MAX
    && forall i :: 1 <= i < n ==> r[i] == LinearBoundary(min, max, n, i)
  }

  lemma DivGrows(x: int, y: int, d: int)
    requires d >= 1 && x + d <= y
    ensures x / d < y / d
  {
  }

  lemma DivRounds(q: int, d: int)
    requires d >= 1
    ensures (2 * (q * d) + d) / (2 * d) == q
  {
    var x := 2 * (q * d) + d;
    assert x == q * (2 * d) + d;
    QuotientIs(x, 2 * d, q, d);
  }

  lemma QuotientIs(x: int, d: int, q: int, rest: int)
    requires d >= 1 && x == q * d + rest && 0 <= rest < d
    ensures x / d == q
  {
    assert x == (x / d) * d + x % d;
    if q < x / d {
      Scale(d, q + 1, x / d);
    } else if x / d < q {
      Scale(d, x / d + 1, q);
    }
  }

  lemma LinearGrows(min: int, max: int, n: nat, i: nat)
    requires 3 <= n <= max - min + 2
    ensures LinearBoundary(min, max, n, i) < LinearBoundary(min, max, n, i + 1)
  {
    var x := 2 * (min * (n - 1 - i) + max * (i - 1)) + (n - 2);
    var y := 2 * (min * (n - 1 - (i + 1)) + max * ((i + 1) - 1)) + (n - 2);
    LinearStep(min, max, n, i);
    DivGrows(x, y, 2 * (n - 2));
  }

  lemma LinearStep(min: int, max: int, n: int, i: int)
    ensures min * (n - 1 - (i + 1)) + max * ((i + 1) - 1) == min * (n - 1 - i) + max * (i - 1) + (max - min)
  {
  }

  /** Linear buckets are never empty, begin at the minimum and end at the maximum. */
  lemma LinearIsSound(r: seq<int>, min: int, max: int, n: nat)
    requires Layable(min, max, n) && IsLinear(r, min, max, n)
    ensures StrictlyIncreasing(r) && r[1] == min && r[n - 1] == max
  {
    LinearEnds(min, max, n);
    forall k {:trigger r[k]} | 1 <= k < |r| ensures r[k - 1] < r[k] {
      if 2 <= k < n {
        LinearGrows(min, max, n, k - 1);
      }
    }
    StepsIncrease(r);
  }

  lemma LinearEnds(min: int, max: int, n: nat)
    requires n >= 3
    ensures LinearBoundary(min, max, n, 1) == min && LinearBoundary(min, max, n, n - 1) == max
  {
    DivRounds(min, n - 2);
    DivRounds(max, n - 2);
    assert min * (n - 1 - 1) + max * (1 - 1) == min * (n - 2);
    assert min * (n - 1 - (n - 1)) + max * ((n - 1) - 1) == max * (n - 2);
  }

  lemma DivNearest(x: int, d: int)
    requires d >= 1
    ensures var q := (2 * x + d) / (2 * d);
      2 * (q * d) - d <= 2 * x < 2 * (q * d) + d
  {
    var q := (2 * x + d) / (2 * d);
    assert 2 * x + d == q * (2 * d) + (2 * x + d) % (2 * d);
    assert q * (2 * d) == 2 * (q * d);
  }

  /** A linear boundary is within half of the exact value, and the upper neighbour of a half. */
  lemma LinearIsNearest(min: int, max: int, n: nat, i: nat)
    requires n >= 3
    ensures var exact, scaled := min * (n - 1 - i) + max * (i - 1), LinearBoundary(min, max, n, i) * (n - 2);
      2 * scaled - (n - 2) <= 2 * exact < 2 * scaled + (n - 2)
  {
    DivNearest(min * (n - 1 - i) + max * (i - 1), n - 2);
  }

  // ---- Custom layouts ----

  /** std::sort followed by std::unique and erase. */
  function SortedUnique(s: seq<int>): (r: seq<int>)
    ensures StrictlyIncreasing(r)
    ensures forall x :: x in r <==> x in s
  {
    if s == [] then [] else Insert(SortedUnique(s[1..]), s[0])
  }

  function Insert(r: seq<int>, x: int): (t: seq<int>)
    requires StrictlyIncreasing(r)
    ensures StrictlyIncreasing(t)
    ensures forall y :: y in t <==> y == x || y in r
  {
    if r == [] || x < r[0] then [x] + r
    else if x == r[0] then r
    else
      var rest := Insert(r[1..], x);
      assert forall i :: 0 <= i < |rest| ==> rest[i] in rest;
      [r[0]] + rest
  }

  /** The boundaries of a custom histogram: the values and 0, at least two of them. */
  function CustomBoundaries(values: seq<int>): (r: seq<int>) {
    var ranges := SortedUnique(values + [0]);
    if |ranges| <= 1 then ranges + [1] else ranges
  }

  /** With the top sentinel they are a layout, whenever the values are samples. */
  lemma CustomIsSound(values: seq<int>)
    requires forall v :: v in values ==> 0 <= v < SAMPLE_MAX
    ensures var r := CustomBoundaries(values);
            && |r| >= 2 && r[0] == 0 && StrictlyIncreasing(r + [SAMPLE_MAX])
            && (forall v :: v in values ==> v in r)
            && (forall v :: v in r ==> v == 0 || v in values || r == [0, 1])
  {
    var s, r := SortedUnique(values + [0]), CustomBoundaries(values);
    assert 0 in values + [0];
    assert s != [] && s[0] in s;
    assert forall v :: v in s ==> v in values || v == 0;
    var k :| 0 <= k < |s| && s[k] == 0;
    assert s[0] == 0;
    forall i | 0 <= i < |s| ensures 0 <= s[i] < SAMPLE_MAX {
      assert s[i] in s;
    }
  }

  /** Each value followed by its guard, as ArrayToCustomRanges lists them. */
  function WithGuards(values: seq<int>): (r: seq<int>)
    ensures forall v :: v in values ==> v in r && v + 1 in r
    ensures forall v :: v in r ==> v in values || v - 1 in values
  {
    if values == [] then []
    else
      var rest := WithGuards(values[1..]);
      assert forall v :: v in values <==> v == values[0] || v in values[1..];
      var r := [values[0], values[0] + 1] + rest;
      assert forall v :: v in r <==> v == values[0] || v == values[0] + 1 || v in rest;
      r
  }

  method ArrayToCustomRanges(values: seq<int>) returns (allValues: seq<int>)
    ensures allValues == WithGuards(values)
  {
    allValues := [];
    for i := 0 to |values|
      invariant allValues + WithGuards(values[i..]) == WithGuards(values)
    {
      var value := values[i];
      assert values[i..][1..] == values[i + 1..];
      GuardsOfCons(allValues, value, WithGuards(values[i + 1..]));
      allValues := allValues + [value];
      allValues := allValues + [value + 1];
    }
  }

  lemma GuardsOfCons(done: seq<int>, value: int, rest: seq<int>)
    ensures done + ([value, value + 1] + rest) == ((done + [value]) + [value + 1]) + rest
  {
  }

  /** In a strictly increasing layout a value and its successor enclose one bucket. */
  lemma NeighboursAreAdjacent(r: seq<int>, v: int) returns (i: nat)
    requires StrictlyIncreasing(r) && v in r && v + 1 in r
    ensures i + 1 < |r| && r[i] == v && r[i + 1] == v + 1
  {
    i :| i < |r| && r[i] == v;
    var j :| 0 <= j < |r| && r[j] == v + 1;
    assert i < j && r[i] < r[i + 1] <= r[j];
  }

  /** Every valid sample of a custom enumeration has a bucket of its own. */
  lemma ValidSamplesAreAlone(values: seq<int>, v: int) returns (i: nat)
    requires v in values && forall w :: w in values ==> 0 <= w < SAMPLE_MAX - 1
    ensures var r := CustomBoundaries(WithGuards(values));
            i + 1 < |r| && r[i] == v && r[i + 1] == v + 1
  {
    var guarded := WithGuards(values);
    forall w | w in guarded ensures 0 <= w < SAMPLE_MAX {
      assert w in values || w - 1 in values;
    }
    CustomIsSound(guarded);
    var r := CustomBoundaries(guarded);
    assert r == (r + [SAMPLE_MAX])[..|r|];
    i := NeighboursAreAdjacent(r, v);
  }
}
