// The registry of histograms and of the boundary vectors that they share.

module Recorders {
  import opened BucketLayout
  import opened Histograms
  import opened Options
  import opened Tallies

  /** A range checksum as the key of the map of boundary vectors. */
  datatype Key = Key(checksum: bv32)

  /** What registration does to the registry, whatever stands for a histogram:
      the first of a name stays, later ones are deleted in its favour. */
  datatype Registry<H(==)> = Registry(histograms: map<string, H>, deleted: set<H>)

  function Register<H>(registry: Registry<H>, name: string, own: H): Registry<H> {
    if name in registry.histograms then registry.(deleted := registry.deleted + {own})
    else registry.(histograms := registry.histograms[name := own])
  }

  /** The first of the contents that equals r, or their number. */
  function MatchIn(contents: seq<seq<int>>, r: seq<int>): (i: nat)
    ensures i <= |contents|
    ensures forall j :: 0 <= j < i ==> contents[j] != r
    ensures i < |contents| ==> contents[i] == r
  {
    if contents == [] || contents[0] == r then 0 else MatchIn(contents[1..], r) + 1
  }

  function EntriesAt<V>(lists: map<Key, seq<V>>, key: Key): seq<V> {
    if key in lists then lists[key] else []
  }

  /** What registration of a vector does, whatever stands for a vector: the owner is
      given the entry of equal contents, or keeps its own, which is listed in front. */
  function Chosen<V>(entries: seq<V>, contents: seq<seq<int>>, own: V, r: seq<int>): V
    requires |entries| == |contents|
  {
    var i := MatchIn(contents, r);
    if i < |entries| then entries[i] else own
  }

  function Listed<V>(entries: seq<V>, contents: seq<seq<int>>, own: V, r: seq<int>): seq<V>
    requires |entries| == |contents|
  {
    if MatchIn(contents, r) < |entries| then entries else [own] + entries
  }

  predicate IsListed<V(==)>(lists: map<Key, seq<V>>, checksum: bv32, v: V) {
    Key(checksum) in lists && v in lists[Key(checksum)]
  }

  class StatisticsRecorder {
    var active: bool
    var histograms: map<string, Histogram>
    var ranges: map<Key, seq<CachedRanges>>
    // Objects given back to the allocator.
    var deletedHistograms: set<Histogram>
    var deletedRanges: set<CachedRanges>
    var vectorsSaved: nat
    // The registered boundary vectors.
    ghost var shared: set<CachedRanges>

    function Value(): Registry<Histogram>
      reads this
    {
      Registry(histograms, deletedHistograms)
    }

    /** Under each checksum, the registered boundary vectors that have it, all
        different, and none of them deleted. */
    ghost predicate RangesValid()
      reads this`ranges, this`shared, this`deletedRanges, shared
    {
      && (forall key, i :: key in ranges && 0 <= i < |ranges[key]| ==>
            ranges[key][i] in shared && ranges[key][i].rangeChecksum == key.checksum)
      && (forall key, i, j :: key in ranges && 0 <= i < j < |ranges[key]| ==>
            ranges[key][i].ranges != ranges[key][j].ranges)
      && shared !! deletedRanges
    }

    /** A registered histogram is alive under its own name, and uses a registered vector. */
    ghost predicate Registered(name: string, h: Histogram)
      reads this`ranges, this`deletedHistograms, h
    {
      && h.name == name && h !in deletedHistograms
      && IsListed(ranges, h.rangeChecksum, h.cachedRanges)
    }

    /** Every registered histogram can count. */
    ghost predicate AllReady()
      reads this`histograms, histograms.Values
      reads set h | h in histograms.Values :: h.sample, set h | h in histograms.Values :: h.cachedRanges
    {
      forall name :: name in histograms ==> histograms[name].Ready()
    }

    ghost predicate Valid()
      reads this, shared, histograms.Values
      reads set h | h in histograms.Values :: h.sample, set h | h in histograms.Values :: h.cachedRanges
    {
      RangesValid() && AllReady() && forall name :: name in histograms ==> Registered(name, histograms[name])
    }

    constructor ()
      ensures Valid() && active && Value() == Registry(map[], {})
    {
      active := true;
      histograms, ranges := map[], map[];
      deletedHistograms, deletedRanges, vectorsSaved := {}, {}, 0;
      shared := {};
    }

    /** Two registered histograms with equal boundaries share one object. */
    lemma EqualRangesAreShared(a: string, b: string)
      requires Valid() && a in histograms && b in histograms
      requires histograms[a].cachedRanges.ranges == histograms[b].cachedRanges.ranges
      ensures histograms[a].cachedRanges == histograms[b].cachedRanges
    {
      var g, h := histograms[a], histograms[b];
      assert Registered(a, g) && Registered(b, h);
      EqualEntries(ranges[Key(g.rangeChecksum)], g.cachedRanges, h.cachedRanges);
    }

    static lemma EqualEntries(entries: seq<CachedRanges>, x: CachedRanges, y: CachedRanges)
      requires forall i, j :: 0 <= i < j < |entries| ==> entries[i].ranges != entries[j].ranges
      requires x in entries && y in entries && x.ranges == y.ranges
      ensures x == y
    {
    }

    method FindHistogram(name: string) returns (found: Option<Histogram>)
      ensures found == if active && name in histograms then Some(histograms[name]) else None
    {
      if active && name in histograms {
        found := Some(histograms[name]);
      } else {
        found := None;
      }
    }

    static ghost function Contents(entries: seq<CachedRanges>): (contents: seq<seq<int>>)
      reads entries
      ensures |contents| == |entries| && forall i :: 0 <= i < |entries| ==> contents[i] == entries[i].ranges
    {
      seq(|entries|, i requires 0 <= i < |entries| reads entries => entries[i].ranges)
    }

    /** The loop over the vectors of one checksum. */
    method FindEqual(entries: seq<CachedRanges>, own: CachedRanges) returns (i: nat)
      requires forall j :: 0 <= j < |entries| ==> entries[j].rangeChecksum == own.rangeChecksum
      ensures i == MatchIn(Contents(entries), own.ranges)
    {
      i := 0;
      while i < |entries|
        invariant 0 <= i <= |entries|
        invariant forall j :: 0 <= j < i ==> entries[j].ranges != own.ranges
      {
        var same := entries[i].Equals(own);
        if same {
          break;
        }
        i := i + 1;
      }
      MatchIsFirst(Contents(entries), own.ranges, i);
    }

    static lemma {:induction false} MatchIsFirst(contents: seq<seq<int>>, r: seq<int>, i: nat)
      requires i <= |contents| && (forall j :: 0 <= j < i ==> contents[j] != r) && (i < |contents| ==> contents[i] == r)
      ensures MatchIn(contents, r) == i
    {
    }

    /** The vector of the histogram was registered as its contents demand. */
    twostate predicate Placed(histogram: Histogram)
      reads this, histogram
    {
      var own, key := old(histogram.cachedRanges), Key(histogram.rangeChecksum);
      var entries := EntriesAt(old(ranges), key);
      var contents := old(Contents(entries));
      && histogram.cachedRanges == Chosen(entries, contents, own, old(own.ranges))
      && ranges == old(ranges)[key := Listed(entries, contents, own, old(own.ranges))]
      && shared == old(shared) + {histogram.cachedRanges}
      && deletedRanges == old(deletedRanges) + (if histogram.cachedRanges == own then {} else {own})
    }

    /** Registers the vector of the histogram, or gives the histogram the equal
        vector that is registered already. No boundary value changes. */
    method RegisterOrDeleteDuplicateRanges(histogram: Histogram)
      requires RangesValid() && histogram.cachedRanges !in shared && histogram.cachedRanges !in deletedRanges
      modifies this`ranges, this`shared, this`deletedRanges, this`vectorsSaved, histogram`cachedRanges,
          histogram.cachedRanges`rangeChecksum
      ensures RangesValid()
      ensures IsListed(ranges, histogram.rangeChecksum, histogram.cachedRanges)
      ensures histogram.cachedRanges.ranges == old(histogram.cachedRanges.ranges)
      ensures forall sum, c :: IsListed(old(ranges), sum, c) ==> IsListed(ranges, sum, c)
      ensures Placed(histogram)
      ensures shared <= old(shared) + {old(histogram.cachedRanges)}
      ensures deletedRanges <= old(deletedRanges) + {old(histogram.cachedRanges)}
    {
      hide IsListed;
      var histogramRanges := histogram.cachedRanges;
      histogramRanges.rangeChecksum := histogram.rangeChecksum;
      var key := Key(histogram.rangeChecksum);
      // A checksum that is new starts from an empty list.
      var matching := EntriesAt(ranges, key);
      assert Contents(matching) == old(Contents(matching));
      var i := FindEqual(matching, histogramRanges);
      if i < |matching| {
        UseEntry(histogram, matching, i);
      } else {
        PushFront(histogramRanges, key, matching);
      }
    }

    /** Deletes the histogram's own vector in favour of a registered one. */
    method UseEntry(histogram: Histogram, entries: seq<CachedRanges>, i: nat)
      requires RangesValid() && histogram.cachedRanges !in shared
      requires entries == EntriesAt(ranges, Key(histogram.rangeChecksum)) && i < |entries|
      modifies this`deletedRanges, this`vectorsSaved, histogram`cachedRanges
      ensures RangesValid() && histogram.cachedRanges == entries[i] && entries[i] in shared
      ensures IsListed(ranges, histogram.rangeChecksum, entries[i])
      ensures deletedRanges == old(deletedRanges) + {old(histogram.cachedRanges)}
    {
      var own := histogram.cachedRanges;
      histogram.cachedRanges := entries[i];
      vectorsSaved := vectorsSaved + 1;
      deletedRanges := deletedRanges + {own};
    }

    /** Enters a vector in front of the others of its checksum. */
    method PushFront(own: CachedRanges, key: Key, entries: seq<CachedRanges>)
      requires RangesValid() && own !in deletedRanges && own.rangeChecksum == key.checksum
      requires entries == EntriesAt(ranges, key) && forall i :: 0 <= i < |entries| ==> entries[i].ranges != own.ranges
      modifies this`ranges, this`shared
      ensures RangesValid() && ranges == old(ranges)[key := [own] + entries] && shared == old(shared) + {own}
      ensures IsListed(ranges, key.checksum, own)
      ensures forall sum, c :: IsListed(old(ranges), sum, c) ==> IsListed(ranges, sum, c)
    {
      var listed := [own] + entries;
      assert listed[0] == own;
      ranges := ranges[key := listed];
      shared := shared + {own};
    }

    /** A histogram that the registry has not seen, ready to count, with a vector of its own. */
    ghost predicate IsNew(histogram: Histogram)
      reads this, histogram, histogram.sample, histogram.cachedRanges
    {
      && histogram.Ready()
      && (forall name :: name in histograms ==> histograms[name] != histogram)
      && histogram !in deletedHistograms
      && histogram.cachedRanges !in shared && histogram.cachedRanges !in deletedRanges
    }

    method AddNew(histogram: Histogram)
      requires Valid() && IsNew(histogram) && histogram.name !in histograms
      modifies this`histograms, this`ranges, this`shared, this`deletedRanges, this`vectorsSaved
      modifies histogram`cachedRanges, histogram.cachedRanges`rangeChecksum
      ensures Valid() && histograms == old(histograms)[histogram.name := histogram]
      ensures histogram.cachedRanges.ranges == old(histogram.cachedRanges.ranges)
      ensures shared <= old(shared) + {old(histogram.cachedRanges)}
      ensures deletedRanges <= old(deletedRanges) + {old(histogram.cachedRanges)}
    {
      hide ChecksumOf, Layout, Placed, RangesValid, IsListed;
      histograms := histograms[histogram.name := histogram];
      assert AllReady();
      RegisterOrDeleteDuplicateRanges(histogram);
      assert AllReady();
    }

    /** Deletes a histogram in favour of the one of its name that is registered already. */
    method Discard(histogram: Histogram) returns (result: Histogram)
      requires Valid() && IsNew(histogram) && histogram.name in histograms
      modifies this`deletedHistograms
      ensures Valid() && deletedHistograms == old(deletedHistograms) + {histogram}
      ensures result == histograms[histogram.name] && result !in deletedHistograms
    {
      hide ChecksumOf, Histogram.Ready;
      assert Registered(histogram.name, histograms[histogram.name]);
      deletedHistograms := deletedHistograms + {histogram};
      result := histograms[histogram.name];
    }

    /** Registers a new histogram, or deletes it in favour of the one of its name
        that is registered already. Without a live registry it does neither. */
    method RegisterOrDeleteDuplicate(histogram: Histogram) returns (result: Histogram)
      requires Valid() && IsNew(histogram)
      modifies this, histogram`cachedRanges, histogram.cachedRanges`rangeChecksum
      ensures Valid() && active == old(active) && result.Ready()
      ensures histogram.cachedRanges.ranges == old(histogram.cachedRanges.ranges)
      ensures !active ==> result == histogram && Value() == old(Value())
      ensures active ==> Value() == Register(old(Value()), histogram.name, histogram)
      ensures active ==> result == histograms[histogram.name] && result !in deletedHistograms
      ensures shared <= old(shared) + {old(histogram.cachedRanges)}
      ensures deletedRanges <= old(deletedRanges) + {old(histogram.cachedRanges)}
      ensures forall other: Histogram {:trigger IsNew(other)} ::
        old(allocated(other)) && old(IsNew(other) && other != histogram && other.cachedRanges != histogram.cachedRanges)
        ==> IsNew(other)
    {
      hide ChecksumOf, Histogram.Ready, RangesValid;
      if !active {
        return histogram;
      }
      if histogram.name !in histograms {
        AddNew(histogram);
        result := histogram;
        assert Registered(histogram.name, histograms[histogram.name]);
      } else {
        result := Discard(histogram);
        assert Registered(histogram.name, histograms[histogram.name]);
      }
    }

    /** The end of the recorder: the registry goes away and every histogram leaks. */
    method Close()
      requires Valid()
      modifies this
      ensures Valid() && !active && deletedHistograms == old(deletedHistograms) && deletedRanges == old(deletedRanges)
    {
      active := false;
      histograms := map[];
      ranges := map[];
      shared := {};
    }
  }

  method Construct(name: string, min: int, max: int, bucketCount: nat) returns (tentative: Histogram)
    requires bucketCount < BUCKET_COUNT_MAX && Layable(min, max, bucketCount)
    ensures fresh(tentative) && fresh(tentative.sample) && fresh(tentative.cachedRanges)
    ensures tentative.name == name && tentative.Sound()
    ensures IsExponential(tentative.cachedRanges.ranges, min, max, bucketCount)
  {
    tentative := new Histogram(name, min, max, bucketCount);
    tentative.InitializeBucketRange();
  }

  /** Finds the histogram of the name, or lays out a new one and registers it. */
  method FactoryGet(recorder: StatisticsRecorder, name: string, minimum: int, maximum: int, bucketCount: nat)
    returns (histogram: Histogram)
    requires recorder.Valid() && bucketCount < BUCKET_COUNT_MAX
    requires Layable(AtLeastOne(minimum), BelowTop(maximum), bucketCount)
    modifies recorder
    ensures recorder.Valid() && recorder.active == old(recorder.active) && histogram.Ready()
    ensures recorder.active && name in old(recorder.histograms) ==>
      histogram == old(recorder.histograms)[name] && recorder.Value() == old(recorder.Value())
    ensures !(recorder.active && name in old(recorder.histograms)) ==>
      && fresh(histogram) && fresh(histogram.sample) && histogram.name == name && histogram.Sound()
      && IsExponential(histogram.cachedRanges.ranges, AtLeastOne(minimum), BelowTop(maximum), bucketCount)
      && recorder.histograms == (if recorder.active then old(recorder.histograms)[name := histogram]
                                 else old(recorder.histograms))
  {
    hide ChecksumOf, IsExponential;
    var found := recorder.FindHistogram(name);
    if found.Some? {
      return found.value;
    }
    var tentative := Construct(name, AtLeastOne(minimum), BelowTop(maximum), bucketCount);
    histogram := recorder.RegisterOrDeleteDuplicate(tentative);
  }

  function AtLeastOne(minimum: int): int {
    if minimum < 1 then 1 else minimum
  }

  function BelowTop(maximum: int): int {
    if maximum > SAMPLE_MAX - 1 then SAMPLE_MAX - 1 else maximum
  }
}
