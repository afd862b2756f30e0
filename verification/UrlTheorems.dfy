// What the parsed components mean: together with their delimiters they are the
// whole trimmed input, and the offset queries agree with them.

module UrlTheorems {
  import opened Text
  import opened UrlParse

  /** The component and the delimiter before it are exactly s[lo..hi]; an absent
      component leaves an empty range. */
  predicate Fills(s: string, delimiter: string, c: Component, lo: nat, hi: nat) {
    && lo <= hi <= |s|
    && if c.IsValid() then
         lo + |delimiter| == c.begin <= c.End() == hi && s[lo..c.begin] == delimiter
       else
         c == NONE && lo == hi
  }

  function TextOf(s: string, c: Component): string {
    if 0 <= c.begin <= c.End() <= |s| then s[c.begin..c.End()] else ""
  }

  /** The component after its delimiter, or nothing at all. */
  function After(delimiter: string, s: string, c: Component): string {
    if c.IsValid() then delimiter + TextOf(s, c) else ""
  }

  lemma FillsText(s: string, delimiter: string, c: Component, lo: nat, hi: nat)
    requires Fills(s, delimiter, c, lo, hi)
    ensures After(delimiter, s, c) == s[lo..hi]
  {
  }

  /** The components in order, each delimiter only where its component exists. */
  function Rebuild(s: string, p: Parsed, slashes: string): string {
    (if p.scheme.IsValid() then TextOf(s, p.scheme) + ":" else "") + slashes
    + (After("", s, p.username) + After(":", s, p.password) + (if p.username.IsValid() then "@" else "")
       + (After("", s, p.host) + After(":", s, p.port)))
    + (After("", s, p.path) + After("?", s, p.query) + After("#", s, p.ref))
  }

  /** Where the text up to and including this component ends. */
  function Past(c: Component, lo: int): int { if c.IsValid() then c.End() else lo }

  predicate From(c: Component, lo: int) { c.IsValid() ==> lo <= c.begin <= c.End() }

  /** Present components lie in [lo, hi); each begins where the ones before it have ended. */
  predicate Consecutive(cs: seq<Component>, lo: int, hi: int)
    decreases cs
  {
    if cs == [] then lo <= hi else From(cs[0], lo) && Consecutive(cs[1..], Past(cs[0], lo), hi)
  }

  predicate InOrder(p: Parsed, lo: int, hi: int) {
    Consecutive([p.scheme, p.username, p.password, p.host, p.port, p.path, p.query, p.ref], lo, hi)
  }

  // ---- Section by section: where each component sits ----

  lemma RangeSits(lo: int, hi: int)
    requires 0 <= lo <= hi
    ensures MakeRange(lo, hi).IsValid() && MakeRange(lo, hi).begin == lo && MakeRange(lo, hi).End() == hi
  {
  }

  lemma ColonSits(s: string, begin: nat, hi: nat, colon: nat)
    requires begin <= hi <= |s| && colon == FirstIn(s, begin, hi, {':'})
    ensures begin <= colon <= hi && (colon < hi ==> s[colon] == ':')
  {
  }

  lemma SchemeInSits(s: string, hi: nat)
    requires hi <= |s|
    ensures var scheme := SchemeIn(s, hi);
            if scheme.IsValid() then
              scheme.begin == TrimFront(s, 0, hi) <= scheme.End() < hi && s[scheme.End()] == ':'
            else scheme == NONE
  {
    hide FirstIn, TrimFront;
    var begin := TrimFront(s, 0, hi);
    var colon := FirstIn(s, begin, hi, {':'});
    ColonSits(s, begin, hi, colon);
    RangeSits(begin, colon);
  }

  lemma SchemeOfURL(s: string)
    ensures StandardURL(s).scheme == SchemeIn(s, TrimmedEnd(s))
  {
    hide AuthorityIn, PathIn, SchemeIn, TrimmedEnd, AuthorityBegin, AuthorityEnd;
  }

  lemma AfterSchemeSits(s: string)
    ensures var scheme := SchemeIn(s, TrimmedEnd(s));
            AfterScheme(s) == if scheme.IsValid() then scheme.End() + 1 else TrimmedBegin(s)
  {
    hide SchemeIn, TrimmedEnd, TrimmedBegin;
  }

  lemma SchemeSits(s: string)
    ensures var scheme := StandardURL(s).scheme;
            if scheme.IsValid() then
              scheme.begin == TrimmedBegin(s) <= scheme.End() && AfterScheme(s) == scheme.End() + 1
              && s[scheme.End()] == ':'
            else
              scheme == NONE && AfterScheme(s) == TrimmedBegin(s)
  {
    hide StandardURL, SchemeIn, AfterScheme, TrimmedEnd, TrimmedBegin;
    TrimmedBeginAgrees(s);
    SchemeOfURL(s);
    SchemeInSits(s, TrimmedEnd(s));
    AfterSchemeSits(s);
  }

  lemma ServerSits(s: string, lo: nat, hi: nat) returns (colon: nat)
    requires lo <= hi <= |s|
    ensures Fills(s, "", ServerInfoIn(s, lo, hi).0, lo, colon)
    ensures Fills(s, ":", ServerInfoIn(s, lo, hi).1, colon, hi)
  {
    var port := ServerInfoIn(s, lo, hi).1;
    colon := if port.IsValid() then port.begin - 1 else hi;
  }

  lemma UserInfoSits(s: string, lo: nat, hi: nat) returns (colon: nat)
    requires lo <= hi <= |s|
    ensures UserInfoIn(s, lo, hi).0.IsValid()
    ensures Fills(s, "", UserInfoIn(s, lo, hi).0, lo, colon)
    ensures Fills(s, ":", UserInfoIn(s, lo, hi).1, colon, hi)
  {
    colon := FirstIn(s, lo, hi, {':'});
  }

  /** The four parts of an authority section and the three points between them. */
  ghost predicate AuthoritySits(s: string, lo: nat, colon: nat, at: nat, server: nat, colon': nat, hi: nat,
                                r: (Component, Component, Component, Component)) {
    && Fills(s, "", r.0, lo, colon) && Fills(s, ":", r.1, colon, at)
    && (if r.0.IsValid() then server == at + 1 <= |s| && s[at] == '@' else server == at && r.1 == NONE)
    && Fills(s, "", r.2, server, colon') && Fills(s, ":", r.3, colon', hi)
  }

  lemma AuthorityPoints(s: string, lo: nat, hi: nat) returns (colon: nat, at: nat, server: nat, colon': nat)
    requires lo <= hi <= |s|
    ensures AuthoritySits(s, lo, colon, at, server, colon', hi, AuthorityIn(s, lo, hi))
  {
    var sign := LastIn(s, lo, hi, {'@'});
    if lo < hi && lo <= sign {
      at, server := sign, sign + 1;
      colon := UserInfoSits(s, lo, at);
      colon' := ServerSits(s, server, hi);
    } else {
      colon, at, server := lo, lo, lo;
      colon' := ServerSits(s, lo, hi);
    }
  }

  lemma PathPoints(s: string, lo: nat, hi: nat) returns (question: nat, hash: nat)
    requires lo <= hi <= |s|
    ensures Fills(s, "", PathIn(s, lo, hi).0, lo, question)
    ensures Fills(s, "?", PathIn(s, lo, hi).1, question, hash)
    ensures Fills(s, "#", PathIn(s, lo, hi).2, hash, hi)
  {
    hash := FirstIn(s, lo, hi, {'#'});
    question := FirstIn(s, lo, hash, {'?'});
  }

  // ---- Nothing is lost ----

  lemma AuthorityLossless(s: string, lo: nat, colon: nat, at: nat, server: nat, colon': nat, hi: nat,
                          r: (Component, Component, Component, Component))
    requires AuthoritySits(s, lo, colon, at, server, colon', hi, r)
    ensures After("", s, r.0) + After(":", s, r.1) + (if r.0.IsValid() then "@" else "")
            + (After("", s, r.2) + After(":", s, r.3)) == s[lo..hi]
  {
    hide After;
    FillsText(s, "", r.0, lo, colon);
    FillsText(s, ":", r.1, colon, at);
    FillsText(s, "", r.2, server, colon');
    FillsText(s, ":", r.3, colon', hi);
    assert (if r.0.IsValid() then "@" else "") == s[at..server];
    Cut(s, lo, colon, at);
    Cut(s, lo, at, server);
    Cut(s, server, colon', hi);
    Cut(s, lo, server, hi);
  }

  lemma PathLossless(s: string, lo: nat, hi: nat)
    requires lo <= hi <= |s|
    ensures var r := PathIn(s, lo, hi);
            After("", s, r.0) + After("?", s, r.1) + After("#", s, r.2) == s[lo..hi]
  {
    var r := PathIn(s, lo, hi);
    var question, hash := PathPoints(s, lo, hi);
    FillsText(s, "", r.0, lo, question);
    FillsText(s, "?", r.1, question, hash);
    FillsText(s, "#", r.2, hash, hi);
    Cut(s, lo, question, hash);
    Cut(s, lo, hash, hi);
  }

  lemma SchemeLossless(s: string, scheme: Component, begin: nat, slash: nat)
    requires begin <= slash <= |s|
    requires if scheme.IsValid() then scheme.begin == begin <= scheme.End() && slash == scheme.End() + 1 &&
        s[scheme.End()] == ':'
             else slash == begin
    ensures (if scheme.IsValid() then TextOf(s, scheme) + ":" else "") == s[begin..slash]
  {
  }

  /** The slash run that the components leave out: maximal from the scheme's colon. */
  function SlashRun(s: string): (run: string)
    ensures forall i :: 0 <= i < |run| ==> IsURLSlash(run[i])
    ensures AuthorityBegin(s) < TrimmedEnd(s) ==> !IsURLSlash(s[AuthorityBegin(s)])
  {
    s[AfterScheme(s)..AuthorityBegin(s)]
  }

  /** Parsing is a lossless decomposition of the trimmed input, for every input. */
  lemma ParseIsLossless(s: string)
    ensures Rebuild(s, StandardURL(s), SlashRun(s)) == s[TrimmedBegin(s)..TrimmedEnd(s)]
  {
    var begin, slash, lo, mid, end := TrimmedBegin(s), AfterScheme(s), AuthorityBegin(s), AuthorityEnd(s),
        TrimmedEnd(s);
    SchemeSits(s);
    SchemeLossless(s, StandardURL(s).scheme, begin, slash);
    var colon, at, server, colon' := AuthorityPoints(s, lo, mid);
    AuthorityLossless(s, lo, colon, at, server, colon', mid, AuthorityIn(s, lo, mid));
    PathLossless(s, mid, end);
    Cut(s, begin, slash, lo);
    Cut(s, begin, lo, mid);
    Cut(s, begin, mid, end);
  }

  // ---- Nothing overlaps ----

  lemma {:induction false} ConsecutiveFrom(cs: seq<Component>, earlier: int, later: int, hi: int)
    requires earlier <= later && Consecutive(cs, later, hi)
    ensures Consecutive(cs, earlier, hi)
    decreases cs
  {
    if cs != [] && !cs[0].IsValid() {
      ConsecutiveFrom(cs[1..], earlier, later, hi);
    }
  }

  /** One component more in front. */
  lemma ConsecutiveWith(c: Component, rest: seq<Component>, lo: int, next: int, hi: int)
    requires From(c, lo) && Past(c, lo) <= next && Consecutive(rest, next, hi)
    ensures Consecutive([c] + rest, lo, hi)
  {
    ConsecutiveFrom(rest, Past(c, lo), next, hi);
    assert ([c] + rest)[1..] == rest;
  }

  lemma FillsWith(s: string, delimiter: string, c: Component, rest: seq<Component>, lo: nat, next: nat, hi: nat)
    requires Fills(s, delimiter, c, lo, next) && Consecutive(rest, next, hi)
    ensures Consecutive([c] + rest, lo, hi)
  {
    ConsecutiveWith(c, rest, lo, next, hi);
  }

  lemma PartsInOrder(s: string, p: Parsed, begin: nat, slash: nat, lo: nat, colon: nat, at: nat, server: nat,
                     colon': nat, mid: nat, question: nat, hash: nat, end: nat)
    requires From(p.scheme, begin) && begin <= Past(p.scheme, begin) <= slash <= lo
    requires AuthoritySits(s, lo, colon, at, server, colon', mid, (p.username, p.password, p.host, p.port))
    requires Fills(s, "", p.path, mid, question) && Fills(s, "?", p.query, question, hash)
    requires Fills(s, "#", p.ref, hash, end)
    ensures InOrder(p, begin, end)
  {
    var path, query, ref := p.path, p.query, p.ref;
    PathInOrder(s, path, query, ref, mid, question, hash, end);
    var rest := [path, query, ref];
    FillsWith(s, ":", p.port, rest, colon', mid, end);
    FillsWith(s, "", p.host, [p.port] + rest, server, colon', end);
    ConsecutiveFrom([p.host] + ([p.port] + rest), at, server, end);
    FillsWith(s, ":", p.password, [p.host] + ([p.port] + rest), colon, at, end);
    FillsWith(s, "", p.username, [p.password] + ([p.host] + ([p.port] + rest)), lo, colon, end);
    ConsecutiveWith(p.scheme, [p.username] + ([p.password] + ([p.host] + ([p.port] + rest))), begin, lo, end);
    assert [p.scheme] + ([p.username] + ([p.password] + ([p.host] + ([p.port] + rest))))
        == [p.scheme, p.username, p.password, p.host, p.port, p.path, p.query, p.ref];
  }

  lemma PathInOrder(s: string, path: Component, query: Component, ref: Component,
                    mid: nat, question: nat, hash: nat, end: nat)
    requires Fills(s, "", path, mid, question) && Fills(s, "?", query, question, hash) && Fills(s, "#", ref, hash, end)
    ensures Consecutive([path, query, ref], mid, end)
  {
    ConsecutiveWith(ref, [], hash, end, end);
    FillsWith(s, "?", query, [ref], question, hash, end);
    FillsWith(s, "", path, [query, ref], mid, question, end);
    assert [path] + [query, ref] == [path, query, ref] && [query] + [ref] == [query, ref] && [ref] + [] == [ref];
  }

  /** Present components are inside the trimmed input, ordered and disjoint. */
  lemma ParseIsOrdered(s: string)
    ensures InOrder(StandardURL(s), TrimmedBegin(s), TrimmedEnd(s))
  {
    var lo, mid, end := AuthorityBegin(s), AuthorityEnd(s), TrimmedEnd(s);
    SchemeSits(s);
    var colon, at, server, colon' := AuthorityPoints(s, lo, mid);
    var question, hash := PathPoints(s, mid, end);
    PartsInOrder(s, StandardURL(s), TrimmedBegin(s), AfterScheme(s), lo, colon, at, server, colon', mid,
        question, hash, end);
  }
}
