// Offsets asked of a parsed URL: how many characters come before a component,
// and how long the URL is.

module UrlOffsets {
  import opened Text
  import opened UrlParse
  import opened UrlTheorems

  const SCHEME: nat := 0
  const USERNAME: nat := 1
  const PASSWORD: nat := 2
  const HOST: nat := 3
  const PORT: nat := 4
  const PATH: nat := 5
  const QUERY: nat := 6
  const REF: nat := 7

  function Components(p: Parsed): (cs: seq<Component>)
    ensures |cs| == 8
    ensures cs[SCHEME] == p.scheme && cs[USERNAME] == p.username && cs[PASSWORD] == p.password && cs[HOST] == p.host
    ensures cs[PORT] == p.port && cs[PATH] == p.path && cs[QUERY] == p.query && cs[REF] == p.ref
  {
    [p.scheme, p.username, p.password, p.host, p.port, p.path, p.query, p.ref]
  }

  /** Characters of the delimiter in front of component i. */
  function Lead(i: nat): nat { if i == PORT || i == QUERY || i == REF then 1 else 0 }

  /** Characters of the delimiter behind component i. */
  function Trail(i: nat): nat { if i <= PASSWORD then 1 else 0 }

  /** From component i on, the present components with their delimiters tile [cur, end). */
  ghost predicate Tight(cs: seq<Component>, i: nat, cur: int, end: int)
    requires |cs| == 8 && i <= 8
    decreases 8 - i
  {
    if i == 8 then cur == end
    else if cs[i].IsValid() then
      cur + Lead(i) == cs[i].begin <= cs[i].End() && Tight(cs, i + 1, cs[i].End() + Trail(i), end)
    else Tight(cs, i + 1, cur, end)
  }

  /** Components from i on that are present. */
  ghost predicate AnyFrom(cs: seq<Component>, i: nat)
    requires |cs| == 8 && i <= 8
  {
    exists k :: i <= k < 8 && cs[k].IsValid()
  }

  /** After the slashes, what was parsed is tiled without gaps up to the trimmed end. */
  lemma ParseIsTight(s: string)
    ensures Tight(Components(StandardURL(s)), USERNAME, AuthorityBegin(s), TrimmedEnd(s))
  {
    var cs, lo, mid, end := Components(StandardURL(s)), AuthorityBegin(s), AuthorityEnd(s), TrimmedEnd(s);
    var colon, at, server, colon' := AuthorityPoints(s, lo, mid);
    var question, hash := PathPoints(s, mid, end);
    PathIsTight(s, cs, mid, question, hash, end);
    AuthorityIsTight(s, cs, lo, colon, at, server, colon', mid, end);
  }

  lemma TightStage(cs: seq<Component>, i: nat, cur: int, next: int, end: int)
    requires |cs| == 8 && i < 8 && Tight(cs, i + 1, next, end)
    requires if cs[i].IsValid() then cur + Lead(i) == cs[i].begin <= cs[i].End() && next == cs[i].End() + Trail(i)
             else cur == next
    ensures Tight(cs, i, cur, end)
  {
  }

  lemma PathIsTight(s: string, cs: seq<Component>, mid: nat, question: nat, hash: nat, end: nat)
    requires |cs| == 8
    requires Fills(s, "", cs[PATH], mid, question) && Fills(s, "?", cs[QUERY], question, hash) &&
        Fills(s, "#", cs[REF], hash, end)
    ensures Tight(cs, PATH, mid, end)
  {
  }

  lemma AuthorityIsTight(s: string, cs: seq<Component>, lo: nat, colon: nat, at: nat, server: nat, colon': nat,
      mid: nat, end: nat)
    requires |cs| == 8 && Tight(cs, PATH, mid, end)
    requires AuthoritySits(s, lo, colon, at, server, colon', mid, (cs[USERNAME], cs[PASSWORD], cs[HOST], cs[PORT]))
    ensures Tight(cs, USERNAME, lo, end)
  {
    TightStage(cs, PORT, colon', mid, end);
    TightStage(cs, HOST, server, colon', end);
    var colon1 := if cs[USERNAME].IsValid() then colon + 1 else lo;
    TightStage(cs, PASSWORD, colon1, server, end);
    TightStage(cs, USERNAME, lo, colon1, end);
  }

  /** The offset search from component i on, having passed cur characters. */
  function CountFrom(cs: seq<Component>, i: nat, kind: nat, includeDelimiter: bool, cur: int): int
    requires |cs| == 8 && 1 <= i <= 8 && kind < 8
    decreases 8 - i
  {
    if i == 8 then cur
    else if !cs[i].IsValid() then CountFrom(cs, i + 1, kind, includeDelimiter, cur)
    else if kind < i || (kind == i && includeDelimiter) then cs[i].begin - Lead(i)
    else if kind == i then cs[i].begin
    else CountFrom(cs, i + 1, kind, includeDelimiter, cs[i].End() + Trail(i))
  }

  function AfterColon(p: Parsed): int { if p.scheme.IsValid() then p.scheme.End() + 1 else 0 }

  function Count(p: Parsed, kind: nat, includeDelimiter: bool): int
    requires kind < 8
  {
    if kind == SCHEME then p.scheme.begin else CountFrom(Components(p), 1, kind, includeDelimiter, AfterColon(p))
  }

  method CountCharactersBefore(p: Parsed, kind: nat, includeDelimiter: bool) returns (r: int)
    requires kind < 8
    ensures r == Count(p, kind, includeDelimiter)
  {
    if kind == SCHEME { return p.scheme.begin; }
    ghost var cs, goal := Components(p), Count(p, kind, includeDelimiter);
    var cur := 0;
    if p.scheme.IsValid() { cur := p.scheme.End() + 1; }
    if p.username.IsValid() {
      if kind <= USERNAME { return p.username.begin; }
      cur := p.username.End() + 1;
    }
    if p.password.IsValid() {
      if kind <= PASSWORD { return p.password.begin; }
      cur := p.password.End() + 1;
    }
    assert goal == CountFrom(cs, HOST, kind, includeDelimiter, cur);
    if p.host.IsValid() {
      if kind <= HOST { return p.host.begin; }
      cur := p.host.End();
    }
    if p.port.IsValid() {
      if kind < PORT || (kind == PORT && includeDelimiter) { return p.port.begin - 1; }
      if kind == PORT { return p.port.begin; }
      cur := p.port.End();
    }
    assert goal == CountFrom(cs, PATH, kind, includeDelimiter, cur);
    if p.path.IsValid() {
      if kind <= PATH { return p.path.begin; }
      cur := p.path.End();
    }
    if p.query.IsValid() {
      if kind < QUERY || (kind == QUERY && includeDelimiter) { return p.query.begin - 1; }
      if kind == QUERY { return p.query.begin; }
      cur := p.query.End();
    }
    assert goal == CountFrom(cs, REF, kind, includeDelimiter, cur);
    if p.ref.IsValid() {
      if kind == REF && !includeDelimiter { return p.ref.begin; }
      return p.ref.begin - 1;
    }
    return cur;
  }

  function LengthOf(p: Parsed): int { if p.ref.IsValid() then p.ref.End() else Count(p, REF, false) }

  method Length(p: Parsed) returns (r: int)
    ensures r == LengthOf(p)
  {
    if p.ref.IsValid() { return p.ref.End(); }
    r := CountCharactersBefore(p, REF, false);
  }

  /** Of the components from i on, the search stops at the first present one that does
      not come before the kind asked for. */
  lemma {:induction false} CountFindsPresent(cs: seq<Component>, i: nat, kind: nat, d: bool, j: nat, cur: int)
    requires |cs| == 8 && 1 <= i <= j < 8 && kind <= j && cs[j].IsValid()
    requires forall k :: kind <= k < j ==> !cs[k].IsValid()
    ensures CountFrom(cs, i, kind, d, cur) == cs[j].begin - if j == kind && !d then 0 else Lead(j)
    decreases 8 - i
  {
    if i < j {
      var next := if cs[i].IsValid() then cs[i].End() + Trail(i) else cur;
      CountFindsPresent(cs, i + 1, kind, d, j, next);
    }
  }

  /** One stage of the search, with the delimiter widths as plain numbers. */
  lemma CountStage(cs: seq<Component>, i: nat, kind: nat, d: bool, cur: int) returns (lead: nat, next: int)
    requires |cs| == 8 && 1 <= i < 8 && kind < 8
    ensures lead == Lead(i) && next == if cs[i].IsValid() then cs[i].End() + Trail(i) else cur
    ensures cs[i].IsValid() ==> cs[i].End() <= next
    ensures CountFrom(cs, i, kind, d, cur) ==
      if !cs[i].IsValid() || i < kind then CountFrom(cs, i + 1, kind, d, next)
      else if i == kind && !d then cs[i].begin
      else cs[i].begin - lead
  {
    lead := Lead(i);
    next := if cs[i].IsValid() then cs[i].End() + Trail(i) else cur;
  }

  lemma {:induction false} CountIsBounded(cs: seq<Component>, i: nat, kind: nat, d: bool, cur: int, lo: int, end: int)
    requires |cs| == 8 && 1 <= i <= 8 && kind < 8 && cur <= lo && Tight(cs, i, lo, end)
    ensures cur <= CountFrom(cs, i, kind, d, cur) <= end
    decreases 8 - i
  {
    if i < 8 {
      var lead, next := CountStage(cs, i, kind, d, cur);
      var valid := cs[i].IsValid();
      CountIsBounded(cs, i + 1, kind, d, next, if valid then next else lo, end);
      assert valid ==> cur <= cs[i].begin - lead <= cs[i].begin <= next <= end;
    }
  }

  lemma {:induction false} CountIsMonotone(cs: seq<Component>, i: nat, kind: nat, kind': nat, d: bool,
      cur: int, lo: int, end: int)
    requires |cs| == 8 && 1 <= i <= 8 && kind <= kind' < 8 && cur <= lo && Tight(cs, i, lo, end)
    ensures CountFrom(cs, i, kind, d, cur) <= CountFrom(cs, i, kind', d, cur)
    decreases 8 - i
  {
    if i < 8 {
      var lead, next := CountStage(cs, i, kind, d, cur);
      var lead', next' := CountStage(cs, i, kind', d, cur);
      var valid := cs[i].IsValid();
      CountIsBounded(cs, i + 1, kind', d, next, if valid then next else lo, end);
      CountIsMonotone(cs, i + 1, kind, kind', d, next, if valid then next else lo, end);
    }
  }

  lemma {:induction false} CountWithoutMore(cs: seq<Component>, i: nat, cur: int)
    requires |cs| == 8 && 1 <= i <= 8 && !AnyFrom(cs, i)
    ensures CountFrom(cs, i, REF, false, cur) == cur
    decreases 8 - i
  {
  }

  /** What Length() adds up from component i on. */
  function Reached(cs: seq<Component>, i: nat, cur: int): int
    requires |cs| == 8 && 1 <= i <= 8
  {
    if cs[REF].IsValid() then cs[REF].End() else CountFrom(cs, i, REF, false, cur)
  }

  lemma ReachedLater(cs: seq<Component>, i: nat, cur: int)
    requires |cs| == 8 && 1 <= i < 8
    ensures Reached(cs, i, cur) == Reached(cs, i + 1, if cs[i].IsValid() then cs[i].End() + Trail(i) else cur)
  {
  }

  lemma {:induction false} CountReachesEnd(cs: seq<Component>, i: nat, cur: int, lo: int, end: int)
    requires |cs| == 8 && 1 <= i <= 8 && Tight(cs, i, lo, end) && AnyFrom(cs, i)
    ensures Reached(cs, i, cur) == end
    decreases 8 - i
  {
    var valid, next := cs[i].IsValid(), cs[i].End() + Trail(i);
    ReachedLater(cs, i, cur);
    if AnyFrom(cs, i + 1) {
      CountReachesEnd(cs, i + 1, if valid then next else cur, if valid then next else lo, end);
    } else {
      assert valid;
      NothingLeft(cs, i + 1, next, end);
      ReachedEnd(cs, i, next, end);
    }
  }

  lemma ReachedEnd(cs: seq<Component>, i: nat, next: int, end: int)
    requires |cs| == 8 && 1 <= i < 8 && cs[i].IsValid() && !AnyFrom(cs, i + 1) && next == cs[i].End() + Trail(i) == end
    ensures Reached(cs, i + 1, next) == end
  {
    CountWithoutMore(cs, i + 1, next);
    if cs[REF].IsValid() {
      assert i == REF;
    }
  }

  lemma {:induction false} NothingLeft(cs: seq<Component>, i: nat, cur: int, end: int)
    requires |cs| == 8 && i <= 8 && Tight(cs, i, cur, end) && !AnyFrom(cs, i)
    ensures cur == end
    decreases 8 - i
  {
  }

  lemma CursorBeforeAuthority(s: string)
    ensures StandardURL(s).scheme.begin <= AfterColon(StandardURL(s)) <= AuthorityBegin(s)
    ensures StandardURL(s).scheme.IsValid() ==> AfterColon(StandardURL(s)) == AfterScheme(s)
  {
  }

  /** The count before a present component is where it begins; with its delimiter, the
      colon of a port, the question mark or the hash does not count. */
  lemma CountIsBegin(s: string, kind: nat, d: bool)
    requires kind < 8 && Components(StandardURL(s))[kind].IsValid()
    ensures var begin := Components(StandardURL(s))[kind].begin;
      Count(StandardURL(s), kind, d) == if d && kind in {PORT, QUERY, REF} then begin - 1 else begin
  {
    if kind != SCHEME {
      CountFindsPresent(Components(StandardURL(s)), 1, kind, d, kind, AfterColon(StandardURL(s)));
    }
  }

  /** Before an absent component, the next present one with its delimiter begins. */
  lemma CountOfAbsent(s: string, kind: nat, j: nat, d: bool)
    requires 1 <= kind < j < 8 && Components(StandardURL(s))[j].IsValid()
    requires forall k :: kind <= k < j ==> !Components(StandardURL(s))[k].IsValid()
    ensures var begin := Components(StandardURL(s))[j].begin;
      Count(StandardURL(s), kind, d) == if j in {PORT, QUERY, REF} then begin - 1 else begin
  {
    hide StandardURL, CountFrom;
    CountFindsPresent(Components(StandardURL(s)), 1, kind, d, j, AfterColon(StandardURL(s)));
  }

  /** Once nothing more is present, everything up to the trimmed end counts. */
  lemma CountOfRest(s: string, kind: nat, d: bool)
    requires 2 <= kind < 8 && !AnyFrom(Components(StandardURL(s)), kind)
    requires exists k :: 1 <= k < kind && Components(StandardURL(s))[k].IsValid()
    ensures Count(StandardURL(s), kind, d) == TrimmedEnd(s)
  {
    hide StandardURL, AuthorityBegin, TrimmedEnd, Tight;
    ParseIsTight(s);
    CountToEnd(Components(StandardURL(s)), 1, kind, d, AfterColon(StandardURL(s)), AuthorityBegin(s), TrimmedEnd(s));
  }

  lemma {:induction false} CountToEnd(cs: seq<Component>, i: nat, kind: nat, d: bool, cur: int, lo: int, end: int)
    requires |cs| == 8 && 1 <= i <= kind < 8 && Tight(cs, i, lo, end) && !AnyFrom(cs, kind)
    requires cur == lo || exists k :: i <= k < kind && cs[k].IsValid()
    ensures CountFrom(cs, i, kind, d, cur) == end
    decreases 8 - i
  {
    if i == kind {
      NothingLeft(cs, i, lo, end);
      CountPastAll(cs, i, kind, d, cur);
    } else {
      var valid, next := cs[i].IsValid(), cs[i].End() + Trail(i);
      CountToEnd(cs, i + 1, kind, d, if valid then next else cur, if valid then next else lo, end);
    }
  }

  lemma {:induction false} CountPastAll(cs: seq<Component>, i: nat, kind: nat, d: bool, cur: int)
    requires |cs| == 8 && 1 <= i <= 8 && kind < 8 && !AnyFrom(cs, i)
    ensures CountFrom(cs, i, kind, d, cur) == cur
    decreases 8 - i
  {
    if i < 8 {
      CountPastAll(cs, i + 1, kind, d, cur);
    }
  }

  /** For either flag the counts grow with the component order, up to the trimmed end. */
  lemma CountGrows(s: string, kind: nat, kind': nat, d: bool)
    requires kind <= kind' < 8
    ensures Count(StandardURL(s), kind, d) <= Count(StandardURL(s), kind', d) <= TrimmedEnd(s)
  {
    hide StandardURL, AuthorityBegin, TrimmedEnd, Tight;
    var cs, cur, lo, end := Components(StandardURL(s)), AfterColon(StandardURL(s)), AuthorityBegin(s), TrimmedEnd(s);
    CursorBeforeAuthority(s);
    ParseIsTight(s);
    CountIsBounded(cs, 1, kind', d, cur, lo, end);
    CountIsMonotone(cs, 1, kind, kind', d, cur, lo, end);
  }

  lemma LengthFromTight(p: Parsed, lo: int, end: int)
    requires AfterColon(p) <= lo && Tight(Components(p), 1, lo, end)
    ensures AnyFrom(Components(p), 1) ==> LengthOf(p) == end
    ensures !AnyFrom(Components(p), 1) ==> LengthOf(p) == AfterColon(p) && lo == end
  {
    var cs := Components(p);
    if AnyFrom(cs, 1) {
      CountReachesEnd(cs, 1, AfterColon(p), lo, end);
    } else {
      assert !cs[REF].IsValid();
      CountWithoutMore(cs, 1, AfterColon(p));
      NothingLeft(cs, 1, lo, end);
    }
  }

  /** Length() is the trimmed end exactly when something follows the scheme, or
      nothing is left out: no slashes after the colon, or an empty start. */
  lemma LengthIsEnd(s: string)
    ensures LengthOf(StandardURL(s)) == TrimmedEnd(s)
       <==> || AnyFrom(Components(StandardURL(s)), USERNAME)
            || (if StandardURL(s).scheme.IsValid() then SlashRun(s) == "" else TrimmedEnd(s) == 0)
  {
    CursorBeforeAuthority(s);
    ParseIsTight(s);
    LengthFromTight(StandardURL(s), AuthorityBegin(s), TrimmedEnd(s));
    assert |SlashRun(s)| == AuthorityBegin(s) - AfterScheme(s);
  }

  /** A scheme and one slash: the slash is not counted. */
  lemma SlashIsLeftOut()
    ensures LengthOf(StandardURL("a:/")) == 2 && TrimmedEnd("a:/") == 3
  {
    var s := "a:/";
    assert s[0] == 'a' && s[1] == ':' && s[2] == '/';
    assert TrimmedBegin(s) == 0 && TrimmedEnd(s) == 3;
    FirstInSegment(s, 0, 1, 3, {':'}, "a");
    assert SchemeIn(s, 3) == MakeRange(0, 1);
    assert AfterScheme(s) == 2;
    assert SlashesEnd(s, 2, 3) == 3;
    assert AuthorityBegin(s) == 3;
    assert StandardURL(s) == Parsed(MakeRange(0, 1), NONE, NONE, NONE, NONE, NONE, NONE, NONE);
  }
}
