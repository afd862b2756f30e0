// Threads that race to create the same histogram, and the static pointers
// through which call sites remember it.

module FactoryCalls {
  import opened Recorders

  /** Where a call to a histogram macro stands: before loading the site's pointer,
      before the lookup by name, before construction, before registration, before
      storing the pointer, or holding the histogram that it adds to. */
  datatype Phase<H> =
    | Loading
    | Looking
    | Building
    | Registering(own: H)
    | Publishing(found: H)
    | Using(found: H)

  datatype Call<H> = Call(site: nat, phase: Phase<H>)

  /** built holds every histogram constructed so far. */
  datatype State<H(==)> =
    State(registry: Registry<H>, built: set<H>, pointers: map<nat, H>, calls: seq<Call<H>>)

  /** One step of one call, while the recorder is alive. Lookup and registration
      each run under the recorder's lock; made is the allocator's choice. */
  predicate Next<H(==)>(names: nat -> string, s: State<H>, t: State<H>, i: nat, made: H) {
    i < |s.calls| &&
    var c := s.calls[i];
    var name := names(c.site);
    match c.phase
    case Loading =>
      t == s.(calls := s.calls[i := c.(phase :=
        if c.site in s.pointers then Using(s.pointers[c.site]) else Looking)])
    case Looking =>
      t == s.(calls := s.calls[i := c.(phase :=
        if name in s.registry.histograms then Publishing(s.registry.histograms[name]) else Building)])
    case Building =>
      && made !in s.built
      && t == s.(built := s.built + {made}, calls := s.calls[i := c.(phase := Registering(made))])
    case Registering(own) =>
      var after := Register(s.registry, name, own);
      t == s.(registry := after, calls := s.calls[i := c.(phase := Publishing(after.histograms[name]))])
    case Publishing(found) =>
      t == s.(pointers := s.pointers[c.site := found], calls := s.calls[i := c.(phase := Using(found))])
    case Using(_) => t == s
  }

  ghost predicate Init<H>(s: State<H>) {
    && s.registry == Registry(map[], {}) && s.built == {} && s.pointers == map[]
    && forall i :: 0 <= i < |s.calls| ==> s.calls[i].phase.Loading?
  }

  /** The call holds a histogram, either about to publish it or using it. */
  predicate Holding<H>(phase: Phase<H>) {
    phase.Publishing? || phase.Using?
  }

  /** An unregistered histogram belongs to one call; what a call holds and what a
      site points to is the registered histogram of its name, and is not deleted. */
  ghost predicate Inv<H>(names: nat -> string, s: State<H>) {
    && (forall name :: name in s.registry.histograms ==> s.registry.histograms[name] in s.built - s.registry.deleted)
    && s.registry.deleted <= s.built
    && (forall i :: 0 <= i < |s.calls| && s.calls[i].phase.Registering? ==> Private(s, i, s.calls[i].phase.own))
    && (forall site :: site in s.pointers ==> Current(names, s, site, s.pointers[site]))
    && (forall i :: 0 <= i < |s.calls| && Holding(s.calls[i].phase) ==>
          Current(names, s, s.calls[i].site, s.calls[i].phase.found))
  }

  ghost predicate Private<H>(s: State<H>, i: nat, own: H) {
    && own in s.built - s.registry.deleted
    && (forall name :: name in s.registry.histograms ==> s.registry.histograms[name] != own)
    && forall j :: 0 <= j < |s.calls| && j != i && s.calls[j].phase.Registering? ==> s.calls[j].phase.own != own
  }

  predicate Current<H(==)>(names: nat -> string, s: State<H>, site: nat, h: H) {
    names(site) in s.registry.histograms && s.registry.histograms[names(site)] == h
  }

  /** Registered histograms stay, and stay undeleted. */
  predicate Keeps<H(==)>(s: State<H>, t: State<H>) {
    forall name :: name in s.registry.histograms ==>
      name in t.registry.histograms && t.registry.histograms[name] == s.registry.histograms[name]
  }

  lemma InitHolds<H>(names: nat -> string, s: State<H>)
    requires Init(s)
    ensures Inv(names, s)
  {
  }

  lemma NextKeeps<H>(names: nat -> string, s: State<H>, t: State<H>, i: nat, made: H)
    requires Next(names, s, t, i, made)
    ensures Keeps(s, t)
  {
  }

  lemma NextPreserves<H>(names: nat -> string, s: State<H>, t: State<H>, i: nat, made: H)
    requires Inv(names, s) && Next(names, s, t, i, made)
    ensures Inv(names, t)
  {
    match s.calls[i].phase {
      case Loading =>
      case Looking =>
      case Building =>
      case Registering(own) =>
      case Publishing(found) =>
      case Using(_) =>
    }
  }

  /** picks[k] is the call that makes step k, and the address that an allocation
      in that step would return. */
  ghost predicate IsRun<H>(names: nat -> string, run: seq<State<H>>, picks: seq<(nat, H)>) {
    && |run| == |picks| + 1 && Init(run[0])
    && forall k :: 0 <= k < |picks| ==> Next(names, run[k], run[k + 1], picks[k].0, picks[k].1)
  }

  lemma {:induction false} RunHolds<H>(names: nat -> string, run: seq<State<H>>, picks: seq<(nat, H)>, k: nat)
    requires IsRun(names, run, picks) && k < |run|
    ensures Inv(names, run[k])
    decreases k
  {
    if k == 0 {
      InitHolds(names, run[0]);
    } else {
      RunHolds(names, run, picks, k - 1);
      NextPreserves(names, run[k - 1], run[k - 1 + 1], picks[k - 1].0, picks[k - 1].1);
    }
  }

  lemma {:induction false} RunKeeps<H>(names: nat -> string, run: seq<State<H>>, picks: seq<(nat, H)>, k: nat, m: nat)
    requires IsRun(names, run, picks) && k <= m < |run|
    ensures Keeps(run[k], run[m])
    decreases m
  {
    if k < m {
      RunKeeps(names, run, picks, k, m - 1);
      NextKeeps(names, run[m - 1], run[m - 1 + 1], picks[m - 1].0, picks[m - 1].1);
    }
  }

  /** In every interleaving, all calls for one name, at whatever times and sites,
      get the same histogram, and it is never deleted. */
  lemma OneHistogramPerName<H>(names: nat -> string, run: seq<State<H>>, picks: seq<(nat, H)>,
                               k: nat, i: nat, m: nat, j: nat)
    requires IsRun(names, run, picks) && k <= m < |run|
    requires i < |run[k].calls| && Holding(run[k].calls[i].phase)
    requires j < |run[m].calls| && Holding(run[m].calls[j].phase)
    requires names(run[k].calls[i].site) == names(run[m].calls[j].site)
    ensures run[k].calls[i].phase.found == run[m].calls[j].phase.found
    ensures run[k].calls[i].phase.found in run[m].built - run[m].registry.deleted
  {
    RunHolds(names, run, picks, k);
    RunHolds(names, run, picks, m);
    RunKeeps(names, run, picks, k, m);
    assert Current(names, run[k], run[k].calls[i].site, run[k].calls[i].phase.found);
    assert Current(names, run[m], run[m].calls[j].site, run[m].calls[j].phase.found);
  }
}
