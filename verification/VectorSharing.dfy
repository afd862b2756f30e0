// The boundary vectors of racing histograms: registration lists the vector of a
// new histogram, or gives it the equal one that is listed already.

module VectorSharing {
  import opened FactoryCalls
  import opened Recorders

  /** The machine of racing calls, with a vector for each histogram, the boundaries
      of each vector, the registered vectors by checksum, and the deleted ones. */
  datatype Shared<H(==), V(==)> = Shared(
    base: State<H>, vectorOf: map<H, V>, values: map<V, seq<int>>, lists: map<Key, seq<V>>, deleted: set<V>)

  /** The allocator's and the caller's choices in a step that constructs: the
      histogram, its vector, and the boundaries that its arguments lay out. */
  datatype Pick<H, V> = Pick(call: nat, made: H, vector: V, boundaries: seq<int>)

  predicate Known<V>(values: map<V, seq<int>>, entries: seq<V>) {
    forall i :: 0 <= i < |entries| ==> entries[i] in values
  }

  function Contents<V>(values: map<V, seq<int>>, entries: seq<V>): (contents: seq<seq<int>>)
    requires Known(values, entries)
    ensures |contents| == |entries| && forall i :: 0 <= i < |entries| ==> contents[i] == values[entries[i]]
  {
    seq(|entries|, i requires 0 <= i < |entries| => values[entries[i]])
  }

  /** Registration of the vector v under its checksum. */
  predicate Places<H(==), V(==)>(keyOf: seq<int> -> Key, s: Shared<H, V>, t: Shared<H, V>, own: H) {
    own in s.vectorOf && s.vectorOf[own] in s.values &&
    var v := s.vectorOf[own];
    var key := keyOf(s.values[v]);
    var entries := EntriesAt(s.lists, key);
    Known(s.values, entries) &&
    var now := Chosen(entries, Contents(s.values, entries), v, s.values[v]);
    && t.vectorOf == s.vectorOf[own := now]
    && t.lists == s.lists[key := Listed(entries, Contents(s.values, entries), v, s.values[v])]
    && t.deleted == (if now == v then s.deleted else s.deleted + {v})
    && t.values == s.values
  }

  predicate SameVectors<H(==), V(==)>(s: Shared<H, V>, t: Shared<H, V>) {
    t.vectorOf == s.vectorOf && t.values == s.values && t.lists == s.lists && t.deleted == s.deleted
  }

  /** One step of one call. keyOf is the range checksum. */
  predicate NextShared<H(==), V(==)>(names: nat -> string, keyOf: seq<int> -> Key,
                                     s: Shared<H, V>, t: Shared<H, V>, p: Pick<H, V>)
  {
    Next(names, s.base, t.base, p.call, p.made) &&
    var c := s.base.calls[p.call];
    match c.phase
    case Building =>
      && p.vector !in s.values
      && t.vectorOf == s.vectorOf[p.made := p.vector] && t.values == s.values[p.vector := p.boundaries]
      && t.lists == s.lists && t.deleted == s.deleted
    case Registering(own) =>
      if names(c.site) in s.base.registry.histograms then SameVectors(s, t) else Places(keyOf, s, t, own)
    case _ => SameVectors(s, t)
  }

  // ---- Lists ----

  /** Listed vectors are alive, under their own checksum, and differ within a list. */
  ghost predicate ListsValid<V>(keyOf: seq<int> -> Key, values: map<V, seq<int>>,
                                lists: map<Key, seq<V>>, deleted: set<V>)
  {
    && (forall key, i :: key in lists && 0 <= i < |lists[key]| ==>
          lists[key][i] in values && keyOf(values[lists[key][i]]) == key && lists[key][i] !in deleted)
    && forall key, i, j :: key in lists && 0 <= i < j < |lists[key]| ==> values[lists[key][i]] != values[lists[key][j]]
  }

  ghost predicate Unlisted<V>(lists: map<Key, seq<V>>, v: V) {
    forall key :: key in lists ==> v !in lists[key]
  }

  /** Placing a listed vector keeps the lists valid, and changes no contents. */
  lemma PlaceValid<V>(keyOf: seq<int> -> Key, values: map<V, seq<int>>, lists: map<Key, seq<V>>,
                      deleted: set<V>, v: V)
    requires ListsValid(keyOf, values, lists, deleted) && v in values && v !in deleted && Unlisted(lists, v)
    ensures var key := keyOf(values[v]);
      var entries := EntriesAt(lists, key);
      Known(values, entries) &&
      var now := Chosen(entries, Contents(values, entries), v, values[v]);
      var after := lists[key := Listed(entries, Contents(values, entries), v, values[v])];
      && now in values && values[now] == values[v] && now in after[key]
      && ListsValid(keyOf, values, after, if now == v then deleted else deleted + {v})
      && (forall k :: k in lists ==> k in after && forall u :: u in lists[k] ==> u in after[k])
      && (forall u :: u != v && Unlisted(lists, u) ==> Unlisted(after, u))
  {
    var key := keyOf(values[v]);
    var entries := EntriesAt(lists, key);
    var contents := Contents(values, entries);
    var after := lists[key := Listed(entries, contents, v, values[v])];
    if MatchIn(contents, values[v]) < |entries| {
      assert after == lists;
    } else {
      assert after[key] == [v] + entries && after[key][0] == v;
    }
  }

  // ---- Reachable states ----

  /** The histogram uses a listed vector. */
  predicate Sited<H(==), V(==)>(keyOf: seq<int> -> Key, s: Shared<H, V>, h: H) {
    && h in s.vectorOf && s.vectorOf[h] in s.values
    && keyOf(s.values[s.vectorOf[h]]) in s.lists && s.vectorOf[h] in s.lists[keyOf(s.values[s.vectorOf[h]])]
  }

  /** The vector of a histogram that waits to be registered is its own. */
  ghost predicate Apart<H, V>(s: Shared<H, V>, h: H) {
    h in s.vectorOf && s.vectorOf[h] in s.values && Unlisted(s.lists, s.vectorOf[h]) && s.vectorOf[h] !in s.deleted
  }

  predicate Pending<H(==)>(s: State<H>, h: H) {
    exists i :: 0 <= i < |s.calls| && s.calls[i].phase == Registering(h)
  }

  ghost predicate VectorsHold<H, V>(keyOf: seq<int> -> Key, s: Shared<H, V>) {
    && (forall h :: h in s.base.built ==> h in s.vectorOf && s.vectorOf[h] in s.values)
    && s.deleted <= s.values.Keys
    && ListsValid(keyOf, s.values, s.lists, s.deleted)
    && (forall name :: name in s.base.registry.histograms ==> Sited(keyOf, s, s.base.registry.histograms[name]))
    && (forall h :: h in s.base.built && Pending(s.base, h) ==> Apart(s, h))
    && (forall g, h :: g in s.base.built && h in s.base.built && g != h && Pending(s.base, g) && Pending(s.base, h) ==>
          s.vectorOf[g] != s.vectorOf[h])
  }

  ghost predicate InvShared<H, V>(names: nat -> string, keyOf: seq<int> -> Key, s: Shared<H, V>) {
    Inv(names, s.base) && VectorsHold(keyOf, s)
  }

  ghost predicate InitShared<H, V>(s: Shared<H, V>) {
    Init(s.base) && s.vectorOf == map[] && s.values == map[] && s.lists == map[] && s.deleted == {}
  }

  lemma InitSharedHolds<H, V>(names: nat -> string, keyOf: seq<int> -> Key, s: Shared<H, V>)
    requires InitShared(s)
    ensures InvShared(names, keyOf, s)
  {
    InitHolds(names, s.base);
  }

  /** Who waits to be registered, after a step. */
  lemma PendingAfter<H>(names: nat -> string, s: State<H>, t: State<H>, i: nat, made: H, h: H)
    requires Inv(names, s) && Next(names, s, t, i, made) && Pending(t, h)
    ensures s.calls[i].phase.Registering? ==> h != s.calls[i].phase.own
    ensures Pending(s, h) || (s.calls[i].phase.Building? && h == made)
  {
    var j :| 0 <= j < |t.calls| && t.calls[j].phase == Registering(h);
    if j != i {
      assert s.calls[j].phase == Registering(h);
      assert Private(s, j, h);
    }
  }

  lemma IdleStep<H, V>(names: nat -> string, keyOf: seq<int> -> Key, s: Shared<H, V>, t: Shared<H, V>, p: Pick<H, V>)
    requires InvShared(names, keyOf, s) && NextShared(names, keyOf, s, t, p) && SameVectors(s, t)
    requires t.base.built == s.base.built && t.base.registry.histograms == s.base.registry.histograms
    requires !s.base.calls[p.call].phase.Building?
    ensures VectorsHold(keyOf, t)
  {
    forall h | Pending(t.base, h) ensures Pending(s.base, h) {
      PendingAfter(names, s.base, t.base, p.call, p.made, h);
    }
  }

  lemma BuildStep<H, V>(names: nat -> string, keyOf: seq<int> -> Key, s: Shared<H, V>, t: Shared<H, V>, p: Pick<H, V>)
    requires InvShared(names, keyOf, s) && NextShared(names, keyOf, s, t, p) && s.base.calls[p.call].phase.Building?
    ensures VectorsHold(keyOf, t)
  {
    forall h | Pending(t.base, h) && h != p.made ensures Pending(s.base, h) {
      PendingAfter(names, s.base, t.base, p.call, p.made, h);
    }
    assert Unlisted(t.lists, p.vector);
  }

  /** What placing the vector of own leaves true of every other histogram. */
  lemma PlaceKeepsOthers<H, V>(keyOf: seq<int> -> Key, s: Shared<H, V>, t: Shared<H, V>, own: H, h: H)
    requires ListsValid(keyOf, s.values, s.lists, s.deleted) && Apart(s, own) && Places(keyOf, s, t, own) && h != own
    ensures Sited(keyOf, s, h) ==> Sited(keyOf, t, h)
    ensures Apart(s, h) && s.vectorOf[h] != s.vectorOf[own] ==> Apart(t, h)
  {
    PlaceValid(keyOf, s.values, s.lists, s.deleted, s.vectorOf[own]);
  }

  lemma PlaceSites<H, V>(keyOf: seq<int> -> Key, s: Shared<H, V>, t: Shared<H, V>, own: H)
    requires ListsValid(keyOf, s.values, s.lists, s.deleted) && Apart(s, own) && Places(keyOf, s, t, own)
    ensures Sited(keyOf, t, own) && t.values[t.vectorOf[own]] == s.values[s.vectorOf[own]]
    ensures ListsValid(keyOf, t.values, t.lists, t.deleted) && t.deleted <= s.deleted + {s.vectorOf[own]}
  {
    PlaceValid(keyOf, s.values, s.lists, s.deleted, s.vectorOf[own]);
  }

  lemma PlaceStep<H, V>(names: nat -> string, keyOf: seq<int> -> Key, s: Shared<H, V>, t: Shared<H, V>, p: Pick<H, V>)
    requires InvShared(names, keyOf, s) && NextShared(names, keyOf, s, t, p) && s.base.calls[p.call].phase.Registering?
    requires names(s.base.calls[p.call].site) !in s.base.registry.histograms
    ensures VectorsHold(keyOf, t)
  {
    var own := s.base.calls[p.call].phase.own;
    assert Private(s.base, p.call, own);
    assert s.base.calls[p.call].phase == Registering(own) && Pending(s.base, own);
    PlaceSites(keyOf, s, t, own);
    forall h | h in s.base.built && Pending(t.base, h) ensures Pending(s.base, h) && h != own && Apart(t, h) {
      PendingAfter(names, s.base, t.base, p.call, p.made, h);
      PlaceKeepsOthers(keyOf, s, t, own, h);
    }
    forall name | name in t.base.registry.histograms ensures Sited(keyOf, t, t.base.registry.histograms[name]) {
      var h := t.base.registry.histograms[name];
      if h != own {
        PlaceKeepsOthers(keyOf, s, t, own, h);
      }
    }
  }

  lemma NextSharedPreserves<H, V>(names: nat -> string, keyOf: seq<int> -> Key,
                                  s: Shared<H, V>, t: Shared<H, V>, p: Pick<H, V>)
    requires InvShared(names, keyOf, s) && NextShared(names, keyOf, s, t, p)
    ensures InvShared(names, keyOf, t)
  {
    NextPreserves(names, s.base, t.base, p.call, p.made);
    var c := s.base.calls[p.call];
    if c.phase.Building? {
      BuildStep(names, keyOf, s, t, p);
    } else if c.phase.Registering? && names(c.site) !in s.base.registry.histograms {
      PlaceStep(names, keyOf, s, t, p);
    } else {
      IdleStep(names, keyOf, s, t, p);
    }
  }

  /** Every histogram keeps the boundaries it was built with. */
  predicate KeepsValues<H(==), V(==)>(s: Shared<H, V>, t: Shared<H, V>) {
    forall h :: h in s.base.built && h in s.vectorOf && s.vectorOf[h] in s.values ==>
      && h in t.base.built && h in t.vectorOf && t.vectorOf[h] in t.values
      && t.values[t.vectorOf[h]] == s.values[s.vectorOf[h]]
  }

  lemma NextKeepsValues<H, V>(names: nat -> string, keyOf: seq<int> -> Key,
                              s: Shared<H, V>, t: Shared<H, V>, p: Pick<H, V>)
    requires InvShared(names, keyOf, s) && NextShared(names, keyOf, s, t, p)
    ensures KeepsValues(s, t)
  {
    var c := s.base.calls[p.call];
    if c.phase.Registering? && names(c.site) !in s.base.registry.histograms {
      assert Private(s.base, p.call, c.phase.own) && Pending(s.base, c.phase.own);
      PlaceSites(keyOf, s, t, c.phase.own);
    }
  }

  ghost predicate IsSharedRun<H, V>(names: nat -> string, keyOf: seq<int> -> Key,
                                     run: seq<Shared<H, V>>, picks: seq<Pick<H, V>>)
  {
    && |run| == |picks| + 1 && InitShared(run[0])
    && forall k :: 0 <= k < |picks| ==> NextShared(names, keyOf, run[k], run[k + 1], picks[k])
  }

  lemma {:induction false} SharedRunHolds<H, V>(names: nat -> string, keyOf: seq<int> -> Key,
                                                 run: seq<Shared<H, V>>, picks: seq<Pick<H, V>>, k: nat)
    requires IsSharedRun(names, keyOf, run, picks) && k < |run|
    ensures InvShared(names, keyOf, run[k])
    decreases k
  {
    if k == 0 {
      InitSharedHolds(names, keyOf, run[0]);
    } else {
      SharedRunHolds(names, keyOf, run, picks, k - 1);
      NextSharedPreserves(names, keyOf, run[k - 1], run[k - 1 + 1], picks[k - 1]);
    }
  }

  lemma {:induction false} SharedRunKeepsValues<H, V>(names: nat -> string, keyOf: seq<int> -> Key,
                                                       run: seq<Shared<H, V>>, picks: seq<Pick<H, V>>, k: nat, m: nat)
    requires IsSharedRun(names, keyOf, run, picks) && k <= m < |run|
    ensures KeepsValues(run[k], run[m])
    decreases m
  {
    hide KeepsValues, InvShared, NextShared;
    KeepsItself(run[k]);
    if k < m {
      SharedRunKeepsValues(names, keyOf, run, picks, k, m - 1);
      SharedStepKeepsValues(names, keyOf, run, picks, m - 1, m);
      KeepsTogether(run[k], run[m - 1], run[m]);
    }
  }

  lemma SharedStepKeepsValues<H, V>(names: nat -> string, keyOf: seq<int> -> Key,
                                        run: seq<Shared<H, V>>, picks: seq<Pick<H, V>>, k: nat, m: nat)
    requires IsSharedRun(names, keyOf, run, picks) && m == k + 1 < |run|
    ensures KeepsValues(run[k], run[m])
  {
    SharedRunHolds(names, keyOf, run, picks, k);
    assert NextShared(names, keyOf, run[k], run[k + 1], picks[k]);
    NextKeepsValues(names, keyOf, run[k], run[m], picks[k]);
  }

  lemma KeepsItself<H, V>(s: Shared<H, V>)
    ensures KeepsValues(s, s)
  {
  }

  lemma KeepsTogether<H, V>(s: Shared<H, V>, t: Shared<H, V>, u: Shared<H, V>)
    requires KeepsValues(s, t) && KeepsValues(t, u)
    ensures KeepsValues(s, u)
  {
  }

  lemma SameList<V>(keyOf: seq<int> -> Key, values: map<V, seq<int>>, lists: map<Key, seq<V>>,
                    deleted: set<V>, u: V, v: V)
    requires ListsValid(keyOf, values, lists, deleted) && u in values && v in values && values[u] == values[v]
    requires keyOf(values[u]) in lists && u in lists[keyOf(values[u])] && v in lists[keyOf(values[u])]
    ensures u == v && u !in deleted
  {
  }

  /** In every interleaving of lookups, constructions and registrations, two registered
      histograms with equal boundaries share one vector, which is not deleted. */
  lemma EqualBoundariesAreShared<H, V>(names: nat -> string, keyOf: seq<int> -> Key,
                                             run: seq<Shared<H, V>>, picks: seq<Pick<H, V>>,
                                             k: nat, a: string, b: string)
    requires IsSharedRun(names, keyOf, run, picks) && k < |run|
    requires a in run[k].base.registry.histograms && b in run[k].base.registry.histograms
    ensures var s := run[k];
      var g, h := s.base.registry.histograms[a], s.base.registry.histograms[b];
      && g in s.vectorOf && s.vectorOf[g] in s.values && h in s.vectorOf && s.vectorOf[h] in s.values
      && s.vectorOf[g] !in s.deleted
      && (s.values[s.vectorOf[g]] == s.values[s.vectorOf[h]] ==> s.vectorOf[g] == s.vectorOf[h])
  {
    var s := run[k];
    var g, h := s.base.registry.histograms[a], s.base.registry.histograms[b];
    SharedRunHolds(names, keyOf, run, picks, k);
    assert Sited(keyOf, s, g) && Sited(keyOf, s, h);
    SameList(keyOf, s.values, s.lists, s.deleted, s.vectorOf[g], s.vectorOf[g]);
    if s.values[s.vectorOf[g]] == s.values[s.vectorOf[h]] {
      SameList(keyOf, s.values, s.lists, s.deleted, s.vectorOf[g], s.vectorOf[h]);
    }
  }

  /** And from its construction on no histogram ever sees other boundaries, whether
      it keeps its vector or is given another. */
  lemma BoundariesNeverChange<H, V>(names: nat -> string, keyOf: seq<int> -> Key,
                                          run: seq<Shared<H, V>>, picks: seq<Pick<H, V>>, k: nat, m: nat, h: H)
    requires IsSharedRun(names, keyOf, run, picks) && k <= m < |run| && h in run[k].base.built
    ensures var s, t := run[k], run[m];
      && h in s.vectorOf && s.vectorOf[h] in s.values && h in t.vectorOf && t.vectorOf[h] in t.values
      && t.values[t.vectorOf[h]] == s.values[s.vectorOf[h]]
  {
    SharedRunHolds(names, keyOf, run, picks, k);
    SharedRunKeepsValues(names, keyOf, run, picks, k, m);
  }
}
