// What a histogram's counters mean: the tally of a log of samples.

module Tallies {
  import opened BucketLayout

  /** The value of a SampleSet: bucket counts, the sum of the samples, and their
      number counted a second time. */
  datatype Tally = Tally(counts: seq<int>, sum: int, redundantCount: int)

  /** The boundaries of a histogram: from 0 up to the top sentinel. */
  ghost predicate Layout(r: seq<int>) {
    |r| >= 2 && r[0] == 0 && r[|r| - 1] == SAMPLE_MAX && StrictlyIncreasing(r)
  }

  /** The values that reach a bucket, after Add has clamped them. */
  ghost predicate Samples(log: seq<int>) {
    forall i :: 0 <= i < |log| ==> 0 <= log[i] < SAMPLE_MAX
  }

  function CountIn(log: seq<int>, low: int, high: int): nat
    decreases log
  {
    if log == [] then 0
    else CountIn(log[..|log| - 1], low, high) + if low <= log[|log| - 1] < high then 1 else 0
  }

  function Sum(s: seq<int>): int
    decreases s
  {
    if s == [] then 0 else Sum(s[..|s| - 1]) + s[|s| - 1]
  }

  function Counts(r: seq<int>, log: seq<int>): (counts: seq<int>)
    requires |r| >= 1
  {
    seq(|r| - 1, i requires 0 <= i < |r| - 1 => CountIn(log, r[i], r[i + 1]))
  }

  /** Each bucket counts the samples between its boundaries. */
  function TallyOf(r: seq<int>, log: seq<int>): Tally
    requires |r| >= 1
  {
    Tally(Counts(r, log), Sum(log), |log|)
  }

  // ---- Binary search ----

  /** The one bucket that holds v. */
  function BucketOf(r: seq<int>, v: int): (i: nat)
    requires |r| >= 2 && r[0] <= v < r[|r| - 1]
    ensures i + 1 < |r| && r[i] <= v < r[i + 1]
    decreases r
  {
    if v < r[1] then 0 else BucketOf(r[1..], v) + 1
  }

  lemma BucketIsUnique(r: seq<int>, v: int, i: nat, j: nat)
    requires StrictlyIncreasing(r) && i + 1 < |r| && j + 1 < |r|
    requires r[i] <= v < r[i + 1] && r[j] <= v < r[j + 1]
    ensures i == j
  {
  }

  // ---- One more sample ----

  function Bump(t: Tally, value: int, count: int, i: nat): Tally
    requires i < |t.counts|
  {
    Tally(t.counts[i := t.counts[i] + count], t.sum + count * value, t.redundantCount + count)
  }

  lemma OneMore(log: seq<int>, v: int, low: int, high: int)
    ensures CountIn(log + [v], low, high) == CountIn(log, low, high) + if low <= v < high then 1 else 0
  {
  }

  lemma SumAppends(log: seq<int>, v: int)
    ensures Sum(log + [v]) == Sum(log) + v
  {
  }

  lemma CountsGrow(r: seq<int>, log: seq<int>, v: int, i: nat)
    requires Layout(r) && 0 <= v < SAMPLE_MAX && i == BucketOf(r, v)
    ensures Counts(r, log + [v]) == Counts(r, log)[i := Counts(r, log)[i] + 1]
  {
    var before, after := Counts(r, log), Counts(r, log + [v]);
    forall j | 0 <= j < |before| ensures after[j] == before[i := before[i] + 1][j] {
      OneMore(log, v, r[j], r[j + 1]);
      if r[j] <= v < r[j + 1] {
        BucketIsUnique(r, v, i, j);
      }
    }
  }

  /** Accumulating a sample in its bucket extends the log. */
  lemma BumpExtendsLog(r: seq<int>, log: seq<int>, v: int)
    requires Layout(r) && 0 <= v < SAMPLE_MAX
    ensures Bump(TallyOf(r, log), v, 1, BucketOf(r, v)) == TallyOf(r, log + [v])
  {
    CountsGrow(r, log, v, BucketOf(r, v));
    SumAppends(log, v);
  }

  // ---- Merging ----

  function Plus(a: seq<int>, b: seq<int>): (c: seq<int>)
    requires |a| == |b|
  {
    seq(|a|, i requires 0 <= i < |a| => a[i] + b[i])
  }

  function Minus(a: seq<int>, b: seq<int>): (c: seq<int>)
    requires |a| == |b|
  {
    seq(|a|, i requires 0 <= i < |a| => a[i] - b[i])
  }

  function Merge(t: Tally, u: Tally): Tally
    requires |t.counts| == |u.counts|
  {
    Tally(Plus(t.counts, u.counts), t.sum + u.sum, t.redundantCount + u.redundantCount)
  }

  function Remove(t: Tally, u: Tally): Tally
    requires |t.counts| == |u.counts|
  {
    Tally(Minus(t.counts, u.counts), t.sum - u.sum, t.redundantCount - u.redundantCount)
  }

  lemma {:induction false} CountInAppends(a: seq<int>, b: seq<int>, low: int, high: int)
    ensures CountIn(a + b, low, high) == CountIn(a, low, high) + CountIn(b, low, high)
    decreases b
  {
    if b == [] {
      assert a + b == a;
    } else {
      var c, v := b[..|b| - 1], b[|b| - 1];
      assert b == c + [v] && a + b == (a + c) + [v];
      CountInAppends(a, c, low, high);
      OneMore(a + c, v, low, high);
    }
  }

  lemma {:induction false} SumOfAppend(a: seq<int>, b: seq<int>)
    ensures Sum(a + b) == Sum(a) + Sum(b)
    decreases b
  {
    if b == [] {
      assert a + b == a;
    } else {
      var c, v := b[..|b| - 1], b[|b| - 1];
      assert a + b == (a + c) + [v];
      SumOfAppend(a, c);
      SumAppends(a + c, v);
    }
  }

  /** Merging the tallies of two logs is the tally of both. */
  lemma MergeJoinsLogs(r: seq<int>, a: seq<int>, b: seq<int>)
    requires |r| >= 1
    ensures Merge(TallyOf(r, a), TallyOf(r, b)) == TallyOf(r, a + b)
  {
    var both := Counts(r, a + b);
    forall i | 0 <= i < |both| ensures both[i] == Counts(r, a)[i] + Counts(r, b)[i] {
      CountInAppends(a, b, r[i], r[i + 1]);
    }
    assert both == Plus(Counts(r, a), Counts(r, b));
    SumOfAppend(a, b);
  }

  /** Subtracting a sample set undoes adding it. */
  lemma RemoveUndoesMerge(t: Tally, u: Tally)
    requires |t.counts| == |u.counts|
    ensures Remove(Merge(t, u), u) == t
    ensures Merge(Remove(t, u), u) == t
  {
  }

  /** But a set added to itself has doubled by the time it is subtracted: the
      second step clears it, so only an empty set comes back as it was. */
  lemma SelfMergeIsNotUndone(t: Tally)
    ensures Remove(Merge(t, t), Merge(t, t)) == t
       <==> (t.sum == 0 && t.redundantCount == 0 && forall i :: 0 <= i < |t.counts| ==> t.counts[i] == 0)
  {
  }

  /** A set of one sample that is added to itself and subtracted again is empty. */
  lemma OneSampleIsCleared(t: Tally)
    requires t == Tally([1], 5, 1)
    ensures Remove(Merge(t, t), Merge(t, t)) == Tally([0], 0, 0) != t
  {
    assert Minus(Plus([1], [1]), Plus([1], [1])) == [0];
  }

  // ---- Conservation ----

  lemma {:induction false} SumOfUpdate(s: seq<int>, i: nat, v: int)
    requires i < |s|
    ensures Sum(s[i := v]) == Sum(s) - s[i] + v
    decreases s
  {
    var n := |s| - 1;
    if i == n {
      assert s[i := v][..n] == s[..n];
    } else {
      assert s[i := v][..n] == s[..n][i := v];
      SumOfUpdate(s[..n], i, v);
    }
  }

  lemma {:induction false} SumOfZeros(s: seq<int>)
    requires forall i :: 0 <= i < |s| ==> s[i] == 0
    ensures Sum(s) == 0
    decreases s
  {
    if s != [] {
      SumOfZeros(s[..|s| - 1]);
    }
  }

  lemma TotalGrows(r: seq<int>, log: seq<int>, v: int)
    requires Layout(r) && 0 <= v < SAMPLE_MAX
    ensures Sum(Counts(r, log + [v])) == Sum(Counts(r, log)) + 1
  {
    var i := BucketOf(r, v);
    CountsGrow(r, log, v, i);
    SumOfUpdate(Counts(r, log), i, Counts(r, log)[i] + 1);
  }

  lemma WeightGrows(r: seq<int>, weights: seq<int>, log: seq<int>, v: int)
    requires Layout(r) && 0 <= v < SAMPLE_MAX && |weights| >= |r| - 1
    ensures Weighted(Counts(r, log + [v]), weights) == Weighted(Counts(r, log), weights) + weights[BucketOf(r, v)]
  {
    CountsGrow(r, log, v, BucketOf(r, v));
    WeightOfUpdate(Counts(r, log), Counts(r, log + [v]), weights, BucketOf(r, v));
  }

  lemma WeightOfUpdate(counts: seq<int>, more: seq<int>, weights: seq<int>, i: nat)
    requires |counts| <= |weights| && i < |counts| && more == counts[i := counts[i] + 1]
    ensures Weighted(more, weights) == Weighted(counts, weights) + weights[i]
  {
    WeightedUpdate(counts, weights, i);
  }

  /** Every sample is counted in exactly one bucket. */
  lemma {:induction false} BucketsHoldAll(r: seq<int>, log: seq<int>)
    requires Layout(r) && Samples(log)
    ensures Sum(Counts(r, log)) == |log|
    decreases log
  {
    if log == [] {
      SumOfZeros(Counts(r, log));
    } else {
      var init, v := log[..|log| - 1], log[|log| - 1];
      assert log == init + [v];
      BucketsHoldAll(r, init);
      TotalGrows(r, init, v);
    }
  }

  /** Each count weighted by a value of its bucket. */
  function Weighted(counts: seq<int>, weights: seq<int>): int
    requires |counts| <= |weights|
    decreases counts
  {
    if counts == [] then 0
    else Weighted(counts[..|counts| - 1], weights) + counts[|counts| - 1] * weights[|counts| - 1]
  }

  lemma {:induction false} WeightedUpdate(counts: seq<int>, weights: seq<int>, i: nat)
    requires |counts| <= |weights| && i < |counts|
    ensures Weighted(counts[i := counts[i] + 1], weights) == Weighted(counts, weights) + weights[i]
    decreases counts
  {
    var n := |counts| - 1;
    var more := counts[i := counts[i] + 1];
    if i == n {
      assert more[..n] == counts[..n];
    } else {
      assert more[..n] == counts[..n][i := counts[i] + 1];
      WeightedUpdate(counts[..n], weights, i);
    }
  }

  lemma {:induction false} WeightedZeros(counts: seq<int>, weights: seq<int>)
    requires |counts| <= |weights| && forall i :: 0 <= i < |counts| ==> counts[i] == 0
    ensures Weighted(counts, weights) == 0
    decreases counts
  {
    if counts != [] {
      WeightedZeros(counts[..|counts| - 1], weights);
    }
  }

  /** The greatest value of each bucket. */
  function Tops(r: seq<int>): (tops: seq<int>)
    requires |r| >= 1
  {
    seq(|r| - 1, i requires 0 <= i < |r| - 1 => r[i + 1] - 1)
  }

  /** The sum lies between all samples at the bottom and all at the top of their buckets. */
  lemma {:induction false} SumIsBounded(r: seq<int>, log: seq<int>)
    requires Layout(r) && Samples(log)
    ensures Weighted(Counts(r, log), r) <= Sum(log) <= Weighted(Counts(r, log), Tops(r))
    decreases log
  {
    if log == [] {
      WeightedZeros(Counts(r, log), r);
      WeightedZeros(Counts(r, log), Tops(r));
    } else {
      var init, v := log[..|log| - 1], log[|log| - 1];
      assert log == init + [v];
      SumIsBounded(r, init);
      WeightGrows(r, r, init, v);
      WeightGrows(r, Tops(r), init, v);
    }
  }

  // ---- Corruption ----

  datatype Inconsistency = RangeChecksumError | BucketOrderError | CountHighError | CountLowError

  const INT_MIN: int := -0x8000_0000
  const INT_MAX: int := 0x7fff_ffff

  /** The boundaries below the sentinel start at 0 or above and keep rising. */
  ghost predicate InOrder(bottoms: seq<int>) {
    && (bottoms != [] ==> bottoms[0] >= 0)
    && forall i :: 0 < i < |bottoms| ==> bottoms[i - 1] < bottoms[i]
  }

  lemma InOrderExtends(bottoms: seq<int>, next: int)
    ensures InOrder(bottoms + [next]) <==>
      InOrder(bottoms) && (if bottoms == [] then -1 else bottoms[|bottoms| - 1]) < next
  {
    var more := bottoms + [next];
    if InOrder(more) {
      forall i | 0 < i < |bottoms| ensures bottoms[i - 1] < bottoms[i] {
        assert more[i - 1] < more[i];
      }
      assert bottoms != [] ==> more[0] >= 0 && more[|bottoms| - 1] < more[|bottoms|];
    }
  }

  /** What FindCorruption reports. For a difference of INT_MIN the code negates an
      int that has no negation, and nothing is known of its result. */
  datatype Report = Flags(flags: set<Inconsistency>) | Undefined

  const CLEAN: Report := Flags({})

  /** The flags for redundant count minus total count. A difference too large for
      an int is taken to be INT_MAX, whatever its sign. */
  function DeltaReport(delta: int): Report {
    if delta == INT_MIN then Undefined
    else if delta < INT_MIN || delta > 1 then Flags({CountHighError})
    else if delta < -1 then Flags({CountLowError})
    else CLEAN
  }

  /** The flags of a whole snapshot. */
  ghost function Corruption(bottoms: seq<int>, validChecksum: bool, delta: int): Report {
    match DeltaReport(delta)
    case Undefined => Undefined
    case Flags(counts) =>
      Flags((if InOrder(bottoms) then {} else {BucketOrderError})
            + (if validChecksum then {} else {RangeChecksumError})
            + counts)
  }

  /** Nothing is reported exactly when the boundaries are in order, their checksum
      holds, and the two counts differ by at most the tolerated race of one. */
  lemma NoCorruption(bottoms: seq<int>, validChecksum: bool, delta: int)
    ensures Corruption(bottoms, validChecksum, delta) == CLEAN
       <==> InOrder(bottoms) && validChecksum && -1 <= delta <= 1
    ensures Corruption(bottoms, validChecksum, delta) == Undefined <==> delta == INT_MIN
  {
  }

  /** A shortage of counts is reported as such while its negation fits an int, as an
      excess once it leaves the range of an int, and the one value between is undefined. */
  lemma GiantShortageReadsHigh(delta: int)
    requires delta < -1
    ensures DeltaReport(delta) == Flags({CountLowError}) <==> INT_MIN < delta
    ensures DeltaReport(delta) == Flags({CountHighError}) <==> delta < INT_MIN
    ensures DeltaReport(delta) == Undefined <==> delta == INT_MIN
  {
  }

  /** An excess of more than the tolerated one is reported as such, whatever its size. */
  lemma ExcessReadsHigh(bottoms: seq<int>, validChecksum: bool, delta: int)
    requires delta != INT_MIN
    ensures var flags := Corruption(bottoms, validChecksum, delta).flags;
      && (delta > 1 ==> CountHighError in flags && CountLowError !in flags)
      && (delta < -1 ==> (CountLowError in flags <==> INT_MIN < delta))
      && (delta < -1 ==> (CountHighError in flags <==> delta < INT_MIN))
      && (-1 <= delta <= 1 ==> CountHighError !in flags && CountLowError !in flags)
      && (BucketOrderError in flags <==> !InOrder(bottoms)) && (RangeChecksumError in flags <==> !validChecksum)
  {
  }

  /** One more sample lost than an int can count. */
  lemma ShortageReadsHigh()
    ensures DeltaReport(INT_MIN - 1) == Flags({CountHighError}) != Flags({CountLowError})
  {
    assert CountHighError !in {CountLowError};
  }

  // ---- Runs ----

  datatype Event = Added(value: int) | Merged(other: Tally)

  /** Add clamps its argument to the samples that the buckets cover. */
  function Clamp(value: int): (v: int)
    ensures 0 <= v < SAMPLE_MAX
    ensures 0 <= value < SAMPLE_MAX ==> v == value
  {
    if value > SAMPLE_MAX - 1 then SAMPLE_MAX - 1 else if value < 0 then 0 else value
  }

  /** The sample that is counted is the one nearest to the value. */
  lemma ClampIsNearest(value: int, sample: int)
    requires 0 <= sample < SAMPLE_MAX
    ensures value <= Clamp(value) <= sample || sample <= Clamp(value) <= value
  {
  }

  /** The tally of some log over these boundaries. */
  ghost predicate Faithful(r: seq<int>, t: Tally)
    requires |r| >= 1
  {
    exists log :: Samples(log) && t == TallyOf(r, log)
  }

  /** No samples yet. */
  function Blank(size: nat): Tally {
    Tally(seq(size, i => 0), 0, 0)
  }

  lemma BlankIsFaithful(r: seq<int>)
    requires |r| >= 1
    ensures Faithful(r, Blank(|r| - 1))
  {
    assert Counts(r, []) == seq(|r| - 1, i => 0);
    assert Samples([]) && Blank(|r| - 1) == TallyOf(r, []);
  }

  ghost predicate Allowed(r: seq<int>, e: Event)
    requires |r| >= 1
  {
    e.Merged? ==> Faithful(r, e.other)
  }

  ghost function Step(r: seq<int>, t: Tally, e: Event): Tally
    requires Layout(r) && |t.counts| == |r| - 1 && Allowed(r, e)
  {
    match e
    case Added(value) => Bump(t, Clamp(value), 1, BucketOf(r, Clamp(value)))
    case Merged(other) => Merge(t, other)
  }

  lemma StepIsFaithful(r: seq<int>, t: Tally, e: Event)
    requires Layout(r) && Faithful(r, t) && Allowed(r, e)
    ensures Faithful(r, Step(r, t, e))
  {
    var log :| Samples(log) && t == TallyOf(r, log);
    match e {
      case Added(value) =>
        BumpExtendsLog(r, log, Clamp(value));
        assert Samples(log + [Clamp(value)]);
      case Merged(other) =>
        var more :| Samples(more) && other == TallyOf(r, more);
        MergeJoinsLogs(r, log, more);
        assert Samples(log + more);
    }
  }

  /** The tally after a run of events on a new histogram. */
  ghost function Run(r: seq<int>, events: seq<Event>): (t: Tally)
    requires Layout(r) && forall e :: e in events ==> Allowed(r, e)
    ensures Faithful(r, t)
    decreases events
  {
    if events == [] then
      assert Samples([]);
      TallyOf(r, [])
    else
      var before := Run(r, events[..|events| - 1]);
      StepIsFaithful(r, before, events[|events| - 1]);
      Step(r, before, events[|events| - 1])
  }

  /** A faithful tally over a checksummed layout shows no corruption. */
  lemma FaithfulIsClean(r: seq<int>, t: Tally)
    requires Layout(r) && Faithful(r, t)
    ensures Corruption(r[..|r| - 1], true, t.redundantCount - Sum(t.counts)) == CLEAN
  {
    var log :| Samples(log) && t == TallyOf(r, log);
    BucketsHoldAll(r, log);
    LayoutInOrder(r);
    NoCorruption(r[..|r| - 1], true, 0);
  }

  /** After any run the second count equals the total of the buckets, the sum fits
      the buckets, and nothing is reported as corrupt. */
  lemma RunIsConsistent(r: seq<int>, events: seq<Event>)
    requires Layout(r) && forall e :: e in events ==> Allowed(r, e)
    ensures var t := Run(r, events);
            && t.redundantCount == Sum(t.counts)
            && |t.counts| <= |r| && Weighted(t.counts, r) <= t.sum
            && |t.counts| <= |Tops(r)| && t.sum <= Weighted(t.counts, Tops(r))
            && Corruption(r[..|r| - 1], true, t.redundantCount - Sum(t.counts)) == CLEAN
  {
    var log :| Samples(log) && Run(r, events) == TallyOf(r, log);
    BucketsHoldAll(r, log);
    SumIsBounded(r, log);
    FaithfulIsClean(r, Run(r, events));
  }

  lemma LayoutInOrder(r: seq<int>)
    requires Layout(r)
    ensures InOrder(r[..|r| - 1])
  {
  }
}
