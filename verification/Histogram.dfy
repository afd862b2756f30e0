// The histogram and its parts, as objects updated in place.

module Histograms {
  import opened BucketLayout
  import opened Checksum
  import opened SampleBytes
  import opened Tallies

  const BUCKET_COUNT_MAX: nat := 16384

  /** static_cast<uint32_t> of the number of boundaries. */
  function Seed(size: nat): bv32 {
    (size % 0x1_0000_0000) as bv32
  }

  /** The checksum covers the boundaries below the top sentinel. */
  function ChecksumOf(ranges: seq<int>): bv32
    requires |ranges| >= 1
  {
    Fold(Seed(|ranges|), ranges[..|ranges| - 1])
  }

  /** The fold starts from the number of boundaries, the sentinel included. */
  lemma ChecksumSeed(ranges: seq<int>, seed: bv32)
    requires 1 <= |ranges| < 0x1_0000_0000
    ensures Fold(seed, ranges[..|ranges| - 1]) == ChecksumOf(ranges) <==> seed == |ranges| as bv32
  {
    if Fold(seed, ranges[..|ranges| - 1]) == ChecksumOf(ranges) {
      FoldInjective(seed, Seed(|ranges|), ranges[..|ranges| - 1]);
    }
  }

  /** Altering one boundary of a histogram is reported, unless it is the sentinel. */
  lemma OneAlterationIsReported(r: seq<int>, t: seq<int>, k: nat, delta: int)
    requires |r| == |t| >= 2 && k < |r| && Int32(r[k]) && Int32(t[k]) && r[k] != t[k]
    requires forall i: nat :: i < |r| && i != k ==> r[i] == t[i]
    ensures var report := Corruption(t[..|t| - 1], ChecksumOf(t) == ChecksumOf(r), delta);
      && (report.Undefined? <==> delta == INT_MIN)
      && (report.Flags? ==> (RangeChecksumError in report.flags <==> k < |r| - 1))
  {
    var n := |r| - 1;
    if k < n {
      OneChangeShows(Seed(|r|), r[..n], t[..n], k);
    } else {
      assert r[..n] == t[..n];
    }
  }

  /** The last boundary of a small layout, altered: the checksum is still the same. */
  lemma AlteredSentinelGoesUnnoticed()
    ensures ChecksumOf([0, 1, SAMPLE_MAX]) == ChecksumOf([0, 1, 5])
  {
    assert [0, 1, SAMPLE_MAX][..2] == [0, 1, 5][..2];
  }

  class CachedRanges {
    var ranges: seq<int>
    var rangeChecksum: bv32

    constructor (bucketCount: nat, initialValue: int)
      ensures ranges == seq(bucketCount, i => initialValue) && rangeChecksum == 0
    {
      ranges := seq(bucketCount, i => initialValue);
      rangeChecksum := 0;
    }

    method SetBucketRange(i: nat, value: int)
      requires i < |ranges|
      modifies this`ranges
      ensures ranges == old(ranges)[i := value]
    {
      ranges := ranges[i := value];
    }

    method Equals(other: CachedRanges) returns (same: bool)
      ensures same <==> rangeChecksum == other.rangeChecksum && ranges == other.ranges
    {
      if rangeChecksum != other.rangeChecksum || |ranges| != |other.ranges| {
        return false;
      }
      for index := 0 to |ranges|
        invariant forall i :: 0 <= i < index ==> ranges[i] == other.ranges[i]
      {
        if ranges[index] != other.ranges[index] {
          return false;
        }
      }
      return true;
    }
  }

  class SampleSet {
    var counts: seq<int>
    var sum: int
    var redundantCount: int

    function Value(): Tally
      reads this
    {
      Tally(counts, sum, redundantCount)
    }

    constructor (size: nat)
      ensures Value() == Tally(seq(size, i => 0), 0, 0)
    {
      counts := seq(size, i => 0);
      sum, redundantCount := 0, 0;
    }

    method Accumulate(value: int, count: int, index: nat)
      requires index < |counts|
      modifies this
      ensures Value() == Bump(old(Value()), value, count, index)
    {
      counts := counts[index := counts[index] + count];
      sum := sum + count * value;
      redundantCount := redundantCount + count;
    }

    method TotalCount() returns (total: int)
      ensures total == Sum(counts)
    {
      total := 0;
      for i := 0 to |counts|
        invariant total == Sum(counts[..i])
      {
        assert counts[..i + 1][..i] == counts[..i];
        total := total + counts[i];
      }
      assert counts[..|counts|] == counts;
    }

    /** The argument may be this set itself. */
    method Add(other: SampleSet)
      requires |counts| == |other.counts|
      modifies this
      ensures Value() == Merge(old(Value()), old(other.Value()))
    {
      ghost var mine, theirs := counts, other.counts;
      sum := sum + other.sum;
      redundantCount := redundantCount + other.redundantCount;
      for index := 0 to |counts|
        invariant |counts| == |mine| == |other.counts|
        invariant sum == old(sum) + old(other.sum) && redundantCount == old(redundantCount) + old(other.redundantCount)
        invariant forall i :: 0 <= i < index ==> counts[i] == mine[i] + theirs[i]
        invariant forall i :: index <= i < |counts| ==> counts[i] == mine[i] && other.counts[i] == theirs[i]
      {
        counts := counts[index := counts[index] + other.counts[index]];
      }
      assert counts == Plus(mine, theirs);
    }

    method Subtract(other: SampleSet)
      requires |counts| == |other.counts|
      modifies this
      ensures Value() == Remove(old(Value()), old(other.Value()))
    {
      ghost var mine, theirs := counts, other.counts;
      sum := sum - other.sum;
      redundantCount := redundantCount - other.redundantCount;
      for index := 0 to |counts|
        invariant |counts| == |mine| == |other.counts|
        invariant sum == old(sum) - old(other.sum) && redundantCount == old(redundantCount) - old(other.redundantCount)
        invariant forall i :: 0 <= i < index ==> counts[i] == mine[i] - theirs[i]
        invariant forall i :: index <= i < |counts| ==> counts[i] == mine[i] && other.counts[i] == theirs[i]
      {
        counts := counts[index := counts[index] - other.counts[index]];
      }
      assert counts == Minus(mine, theirs);
    }
  }

  class Histogram {
    const name: string
    const bucketCount: nat
    const sample: SampleSet
    var declaredMin: int
    var declaredMax: int
    var cachedRanges: CachedRanges
    var rangeChecksum: bv32

    /** The dimensions agree. */
    ghost predicate Valid()
      reads this, sample, cachedRanges
    {
      && 2 <= bucketCount < BUCKET_COUNT_MAX
      && |sample.counts| == bucketCount
      && |cachedRanges.ranges| == bucketCount + 1
    }

    /** Laid out and checksummed: what the Initialize methods leave behind. */
    ghost predicate Ready()
      reads this, sample, cachedRanges
    {
      Valid() && Layout(cachedRanges.ranges) && rangeChecksum == ChecksumOf(cachedRanges.ranges)
    }

    /** Ready, and counting some log of samples. */
    ghost predicate Sound()
      reads this, sample, cachedRanges
    {
      Ready() && Faithful(cachedRanges.ranges, sample.Value())
    }

    constructor (name: string, minimum: int, maximum: int, bucketCount: nat)
      requires 2 <= bucketCount < BUCKET_COUNT_MAX
      ensures Valid() && fresh(cachedRanges) && fresh(sample)
      ensures this.name == name && this.bucketCount == bucketCount && rangeChecksum == 0
      ensures declaredMin == (if minimum < 1 then 1 else minimum)
      ensures declaredMax == (if maximum > SAMPLE_MAX - 1 then SAMPLE_MAX - 1 else maximum)
      ensures cachedRanges.ranges == seq(bucketCount + 1, i => if i == bucketCount then SAMPLE_MAX else 0)
      ensures sample.Value() == Blank(bucketCount)
    {
      this.name, this.bucketCount := name, bucketCount;
      declaredMin, declaredMax := minimum, maximum;
      cachedRanges := new CachedRanges(bucketCount + 1, 0);
      rangeChecksum := 0;
      sample := new SampleSet(bucketCount);
      new;
      if declaredMin < 1 {
        declaredMin := 1;
      }
      if declaredMax > SAMPLE_MAX - 1 {
        declaredMax := SAMPLE_MAX - 1;
      }
      cachedRanges.SetBucketRange(bucketCount, SAMPLE_MAX);
    }

    method CalculateRangeChecksum() returns (checksum: bv32)
      requires Valid()
      ensures checksum == ChecksumOf(cachedRanges.ranges)
    {
      var ranges := cachedRanges.ranges;
      checksum := Seed(|ranges|);
      for index := 0 to bucketCount
        invariant checksum == Fold(Seed(|ranges|), ranges[..index])
      {
        FoldAppends(Seed(|ranges|), ranges[..index], ranges[index]);
        assert ranges[..index + 1] == ranges[..index] + [ranges[index]];
        checksum := Crc32(checksum, ranges[index]);
      }
    }

    method ResetRangeChecksum()
      requires Valid()
      modifies this`rangeChecksum
      ensures rangeChecksum == ChecksumOf(cachedRanges.ranges)
    {
      rangeChecksum := CalculateRangeChecksum();
    }

    method HasValidRangeChecksum() returns (valid: bool)
      requires Valid()
      ensures valid <==> rangeChecksum == ChecksumOf(cachedRanges.ranges)
    {
      var checksum := CalculateRangeChecksum();
      valid := checksum == rangeChecksum;
    }

    // ---- Layout ----

    method SetBucketRange(i: nat, value: int)
      requires Valid() && i < bucketCount
      modifies cachedRanges`ranges
      ensures Valid() && cachedRanges.ranges == old(cachedRanges.ranges)[i := value]
    {
      cachedRanges.SetBucketRange(i, value);
    }

    /** The exponential layout, over exact roots. */
    method InitializeBucketRange()
      requires Valid() && Layable(declaredMin, declaredMax, bucketCount)
      requires cachedRanges.ranges[0] == 0 && cachedRanges.ranges[bucketCount] == SAMPLE_MAX
      modifies cachedRanges`ranges, this`rangeChecksum
      ensures Ready() && IsExponential(cachedRanges.ranges, declaredMin, declaredMax, bucketCount)
      ensures cachedRanges.ranges[bucketCount - 1] == declaredMax
      ensures sample.Value() == Blank(bucketCount) ==> Sound()
    {
      var bucketIndex := 1;
      var current := declaredMin;
      SetBucketRange(bucketIndex, current);
      bucketIndex := bucketIndex + 1;
      while bucketCount > bucketIndex
        invariant 2 <= bucketIndex <= bucketCount && Valid()
        invariant LaidTo(cachedRanges.ranges, declaredMin, declaredMax, bucketCount, bucketIndex)
        invariant cachedRanges.ranges[bucketIndex - 1] == current
      {
        var next := NearestRoot(current, declaredMax, bucketCount - bucketIndex);
        StepIsNext(current, declaredMax, bucketCount - bucketIndex);
        if next > current {
          current := next;
        } else {
          current := current + 1;
        }
        LaidFurther(cachedRanges.ranges, declaredMin, declaredMax, bucketCount, bucketIndex, current);
        SetBucketRange(bucketIndex, current);
        bucketIndex := bucketIndex + 1;
      }
      LaidOut(cachedRanges.ranges, declaredMin, declaredMax, bucketCount);
      ResetRangeChecksum();
      ExponentialIsSound(cachedRanges.ranges, declaredMin, declaredMax, bucketCount);
      BlankIsFaithful(cachedRanges.ranges);
    }

    /** LinearHistogram's own layout. */
    method InitializeLinearBucketRange()
      requires Valid() && Layable(declaredMin, declaredMax, bucketCount)
      requires cachedRanges.ranges[0] == 0 && cachedRanges.ranges[bucketCount] == SAMPLE_MAX
      modifies cachedRanges`ranges, this`rangeChecksum
      ensures Ready() && IsLinear(cachedRanges.ranges, declaredMin, declaredMax, bucketCount)
      ensures cachedRanges.ranges[1] == declaredMin && cachedRanges.ranges[bucketCount - 1] == declaredMax
      ensures sample.Value() == Blank(bucketCount) ==> Sound()
    {
      for i := 1 to bucketCount
        invariant Valid() && cachedRanges.ranges[0] == 0 && cachedRanges.ranges[bucketCount] == SAMPLE_MAX
        invariant forall j :: 1 <= j < i ==>
          cachedRanges.ranges[j] == LinearBoundary(declaredMin, declaredMax, bucketCount, j)
      {
        SetBucketRange(i, LinearBoundary(declaredMin, declaredMax, bucketCount, i));
      }
      ResetRangeChecksum();
      LinearIsSound(cachedRanges.ranges, declaredMin, declaredMax, bucketCount);
      BlankIsFaithful(cachedRanges.ranges);
    }

    /** CustomHistogram's layout: the given boundaries below the sentinel. */
    method InitializedCustomBucketRange(customRanges: seq<int>)
      requires Valid() && |customRanges| == bucketCount && cachedRanges.ranges[bucketCount] == SAMPLE_MAX
      requires customRanges[0] == 0 && StrictlyIncreasing(customRanges + [SAMPLE_MAX])
      modifies cachedRanges`ranges, this`rangeChecksum
      ensures Ready() && cachedRanges.ranges == customRanges + [SAMPLE_MAX]
      ensures sample.Value() == Blank(bucketCount) ==> Sound()
    {
      for index := 0 to |customRanges|
        invariant Valid() && cachedRanges.ranges[bucketCount] == SAMPLE_MAX
        invariant forall j :: 0 <= j < index ==> cachedRanges.ranges[j] == customRanges[j]
      {
        SetBucketRange(index, customRanges[index]);
      }
      ResetRangeChecksum();
      assert cachedRanges.ranges == customRanges + [SAMPLE_MAX];
      BlankIsFaithful(cachedRanges.ranges);
    }

    // ---- Samples ----

    method BucketIndex(value: int) returns (mid: nat)
      requires Valid() && Layout(cachedRanges.ranges) && 0 <= value < SAMPLE_MAX
      ensures mid == BucketOf(cachedRanges.ranges, value)
      ensures mid < bucketCount && cachedRanges.ranges[mid] <= value < cachedRanges.ranges[mid + 1]
    {
      var ranges := cachedRanges.ranges;
      var under, over := 0, bucketCount;
      while true
        invariant 0 <= under < over <= bucketCount && ranges[under] <= value < ranges[over]
        decreases over - under
      {
        mid := under + (over - under) / 2;
        if mid == under {
          break;
        }
        if ranges[mid] <= value {
          under := mid;
        } else {
          over := mid;
        }
      }
      BucketIsUnique(ranges, value, mid, BucketOf(ranges, value));
    }

    method Add(value: int)
      requires Valid() && Layout(cachedRanges.ranges)
      modifies sample
      ensures Valid()
      ensures sample.Value()
           == Bump(old(sample.Value()), Clamp(value), 1, BucketOf(old(cachedRanges.ranges), Clamp(value)))
      ensures old(Sound()) ==> Sound()
    {
      ghost var before := sample.Value();
      if Sound() {
        StepIsFaithful(cachedRanges.ranges, before, Added(value));
      }
      var v := value;
      if v > SAMPLE_MAX - 1 {
        v := SAMPLE_MAX - 1;
      }
      if v < 0 {
        v := 0;
      }
      var index := BucketIndex(v);
      sample.Accumulate(v, 1, index);
    }

    method AddSampleSet(other: SampleSet)
      requires Valid() && |other.counts| == bucketCount
      modifies sample
      ensures Valid()
      ensures sample.Value() == Merge(old(sample.Value()), old(other.Value()))
      ensures old(Sound() && Faithful(cachedRanges.ranges, other.Value())) ==> Sound()
    {
      if Sound() && Faithful(cachedRanges.ranges, other.Value()) {
        StepIsFaithful(cachedRanges.ranges, sample.Value(), Merged(other.Value()));
      }
      sample.Add(other);
    }

    method SnapshotSample() returns (snapshot: SampleSet)
      ensures fresh(snapshot) && snapshot.Value() == sample.Value()
    {
      snapshot := new SampleSet(0);
      snapshot.counts, snapshot.sum, snapshot.redundantCount := sample.counts, sample.sum, sample.redundantCount;
    }

    method FindCorruption(snapshot: SampleSet) returns (report: Report)
      requires Valid() && |snapshot.counts| == bucketCount
      ensures report == Corruption(cachedRanges.ranges[..bucketCount],
                                   rangeChecksum == ChecksumOf(cachedRanges.ranges),
                                   snapshot.redundantCount - Sum(snapshot.counts))
    {
      var ranges := cachedRanges.ranges;
      var inconsistencies := {};
      var previousRange := -1;
      var count := 0;
      for index := 0 to bucketCount
        invariant count == Sum(snapshot.counts[..index])
        invariant previousRange == if index == 0 then -1 else ranges[index - 1]
        invariant inconsistencies == if InOrder(ranges[..index]) then {} else {BucketOrderError}
      {
        assert snapshot.counts[..index + 1][..index] == snapshot.counts[..index];
        assert ranges[..index + 1] == ranges[..index] + [ranges[index]];
        InOrderExtends(ranges[..index], ranges[index]);
        count := count + snapshot.counts[index];
        var newRange := ranges[index];
        if previousRange >= newRange {
          inconsistencies := inconsistencies + {BucketOrderError};
        }
        previousRange := newRange;
      }
      assert snapshot.counts[..bucketCount] == snapshot.counts;
      var valid := HasValidRangeChecksum();
      if !valid {
        inconsistencies := inconsistencies + {RangeChecksumError};
      }
      report := CheckDelta(snapshot.redundantCount - count, inconsistencies);
    }

    /** What FindCorruption reports for a snapshot of a sound histogram, that is of one
        that has seen nothing but its construction, Add, and AddSampleSet of sets over
        the same boundaries. */
    lemma SoundIsClean(snapshot: SampleSet)
      requires Sound() && snapshot.Value() == sample.Value()
      ensures Corruption(cachedRanges.ranges[..bucketCount],
                         rangeChecksum == ChecksumOf(cachedRanges.ranges),
                         snapshot.redundantCount - Sum(snapshot.counts)) == CLEAN
    {
      hide Corruption, ChecksumOf;
      FaithfulIsClean(cachedRanges.ranges, sample.Value());
    }

    /** The flags of the difference, added to those found so far. */
    static method CheckDelta(delta64: int, found: set<Inconsistency>) returns (report: Report)
      ensures report == match DeltaReport(delta64)
                        case Undefined => Undefined
                        case Flags(counts) => Flags(found + counts)
    {
      var inconsistencies := found;
      if delta64 != 0 {
        var delta := if INT_MIN <= delta64 <= INT_MAX then delta64 else INT_MAX;
        if delta > 0 {
          if delta > 1 {
            inconsistencies := inconsistencies + {CountHighError};
          }
        } else if delta == INT_MIN {
          return Undefined;
        } else if -delta > 1 {
          inconsistencies := inconsistencies + {CountLowError};
        }
      }
      return Flags(inconsistencies);
    }
  }
}
