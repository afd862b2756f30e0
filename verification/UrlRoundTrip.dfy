// URLs printed from their parts, any of which may be absent, and parsed again.

module UrlRoundTrip {
  import opened Options
  import opened Text
  import opened UrlParse
  import opened UrlTheorems

  datatype Url = Url(
    scheme: Option<string>, slashes: string, user: Option<string>, password: Option<string>, host: Option<string>,
    port: Option<string>, path: Option<string>, query: Option<string>, ref: Option<string>)

  /** The part after its delimiter, or nothing at all. */
  function With(delimiter: string, part: Option<string>): string {
    if part.Some? then delimiter + part.value else ""
  }

  function SchemeText(u: Url): string { if u.scheme.Some? then u.scheme.value + ":" else "" }

  function UserText(u: Url): string {
    if u.user.Some? then (u.user.value + With(":", u.password)) + "@" else ""
  }

  function ServerText(u: Url): string { With("", u.host) + With(":", u.port) }

  function AuthorityText(u: Url): string { UserText(u) + ServerText(u) }

  function PathText(u: Url): string { With("", u.path) + (With("?", u.query) + With("#", u.ref)) }

  function AfterSchemeText(u: Url): string { u.slashes + (AuthorityText(u) + PathText(u)) }

  function Print(u: Url): string { SchemeText(u) + AfterSchemeText(u) }

  // ---- Which parts can be told apart ----

  ghost predicate AllIn(s: string, chars: set<char>) {
    forall i :: 0 <= i < |s| ==> s[i] in chars
  }

  /** Every colon of a host without port comes before a closing bracket, or the
      bracket that opens the host is never closed. */
  ghost predicate Enclosed(host: string)
    requires host != ""
  {
    || (host[0] == '[' && ']' !in host)
    || forall i :: 0 <= i < |host| && host[i] == ':' ==> exists j :: i < j < |host| && host[j] == ']'
  }

  ghost predicate UserIsClear(user: Option<string>, password: Option<string>) {
    (user.None? ==> password.None?) && (user.Some? ==> Free(user.value, {':'}))
  }

  /** The host is not empty; before a port, its opening bracket is closed. */
  ghost predicate ServerIsClear(host: Option<string>, port: Option<string>) {
    && (host.Some? ==> host.value != "" && Free(host.value, {'@'}))
    && (port.Some? ==> Free(port.value, {':', ']', '@'}))
    && (host.Some? && port.Some? ==> host.value[0] == '[' ==> ']' in host.value)
    && (host.Some? && port.None? ==> Enclosed(host.value))
  }

  ghost predicate PathIsClear(path: Option<string>, query: Option<string>) {
    && (path.Some? ==> path.value != "" && path.value[0] in {'/', '\\'} && Free(path.value, {'?', '#'}))
    && (query.Some? ==> Free(query.value, {'#'}))
  }

  /** A path needs an authority before it: its slash would be one of the slashes. */
  ghost predicate WellFormed(u: Url) {
    && UserIsClear(u.user, u.password) && ServerIsClear(u.host, u.port) && PathIsClear(u.path, u.query)
    && Free(AuthorityText(u), {'/', '\\', '?', '#'}) && AllIn(u.slashes, {'/', '\\'})
    && (AuthorityText(u) == "" ==> u.path.None?)
    && (if u.scheme.Some? then Free(u.scheme.value, {':'}) else Free(AfterSchemeText(u), {':'}))
    && Solid(Print(u))
  }

  /** Blanks, control characters, and bytes with the top bit set. */
  predicate IsBlank(ch: char) {
    ch <= ' ' || '\U{80}' <= ch
  }

  /** Neither end would be trimmed. */
  predicate Solid(s: string) {
    s != "" ==> !IsBlank(s[0]) && !IsBlank(s[|s| - 1])
  }

  // ---- Where the parts are printed ----

  function At(part: Option<string>, begin: int): Component {
    if part.Some? then MakeRange(begin, begin + |part.value|) else NONE
  }

  /** The parts of a URL that is printed from index lo on. */
  function PlacedAt(u: Url, lo: nat): Parsed {
    var authority := lo + |SchemeText(u)| + |u.slashes|;
    var server := authority + |UserText(u)|;
    var path := authority + |AuthorityText(u)|;
    var query := path + |With("", u.path)|;
    Parsed(
      At(u.scheme, lo),
      At(u.user, authority), At(u.password, authority + |With("", u.user)| + 1),
      At(u.host, server), At(u.port, server + |With("", u.host)| + 1),
      At(u.path, path), At(u.query, query + 1), At(u.ref, query + |With("?", u.query)| + 1))
  }

  // ---- Section by section ----

  lemma TwoParts(s: string, lo: nat, hi: nat, x: string, y: string)
    requires lo <= hi <= |s| && s[lo..hi] == x + y
    ensures lo + |x| <= hi && lo + |x| + |y| == hi && s[lo..lo + |x|] == x && s[lo + |x|..hi] == y
    ensures y != "" ==> lo + |x| < hi && s[lo + |x|] == y[0]
  {
    assert (x + y)[..|x|] == x && (x + y)[|x|..] == y;
    assert s[lo..hi][..|x|] == s[lo..lo + |x|] && s[lo..hi][|x|..] == s[lo + |x|..hi];
    assert y != "" ==> s[lo..hi][|x|] == y[0];
  }

  lemma UserSection(s: string, lo: nat, at: nat, user: string, password: Option<string>)
    requires lo <= at <= |s| && s[lo..at] == user + With(":", password) && Free(user, {':'})
    ensures UserInfoIn(s, lo, at) == (MakeRange(lo, lo + |user|), At(password, lo + |user| + 1))
  {
    TwoParts(s, lo, at, user, With(":", password));
    FirstInSegment(s, lo, lo + |user|, at, {':'}, user);
  }

  lemma NoHost(s: string, lo: nat, hi: nat, port: string)
    requires lo <= hi <= |s| && s[lo..hi] == ":" + port && Free(port, {':', ']', '@'})
    ensures ServerInfoIn(s, lo, hi) == (NONE, MakeRange(lo + 1, hi))
  {
    TwoParts(s, lo, hi, ":", port);
    LastInSegment(s, lo, lo, hi, {':'}, port);
    assert Free(":" + port, {']'});
    LastInSegment(s, lo, lo - 1, hi, {']'}, ":" + port);
  }

  lemma HostAndPort(s: string, lo: nat, hi: nat, host: string, port: string)
    requires lo <= hi <= |s| && s[lo..hi] == host + (":" + port) && host != ""
    requires Free(port, {':', ']', '@'}) && (host[0] == '[' ==> ']' in host)
    ensures ServerInfoIn(s, lo, hi) == (MakeRange(lo, lo + |host|), MakeRange(lo + |host| + 1, hi))
  {
    var colon := lo + |host|;
    TwoParts(s, lo, hi, host, ":" + port);
    TwoParts(s, colon, hi, ":", port);
    LastInSegment(s, lo, colon, hi, {':'}, port);
    BracketBefore(s, lo, colon, hi, host, port);
  }

  lemma BracketBefore(s: string, lo: nat, colon: nat, hi: nat, host: string, port: string)
    requires lo < colon < hi <= |s| && s[lo..colon] == host && s[colon] == ':' && s[colon + 1..hi] == port
    requires Free(port, {':', ']', '@'}) && (host[0] == '[' ==> ']' in host)
    ensures BracketIn(s, lo, hi) < colon
  {
    forall j | colon < j < hi ensures s[j] != ']' {
      assert s[j] == port[j - colon - 1] && s[j] in port;
    }
    assert s[lo] == host[0];
    if host[0] == '[' {
      var i :| 0 <= i < |host| && host[i] == ']';
      assert s[lo + i] == ']';
    }
  }

  lemma HostAlone(s: string, lo: nat, hi: nat, host: string)
    requires lo < hi <= |s| && s[lo..hi] == host && Enclosed(host)
    ensures ServerInfoIn(s, lo, hi) == (MakeRange(lo, hi), NONE)
  {
    var colon := LastIn(s, lo, hi, {':'});
    forall i | 0 <= i < |host| ensures host[i] == s[lo + i] {
    }
    if lo <= colon {
      assert host[colon - lo] == ':';
      if host[0] == '[' && ']' !in host {
        assert Free(host, {']'});
        LastInSegment(s, lo, lo - 1, hi, {']'}, host);
      } else {
        var j :| colon - lo < j < |host| && host[j] == ']';
        assert s[lo + j] == ']';
      }
    }
  }

  lemma ServerSection(s: string, lo: nat, hi: nat, host: Option<string>, port: Option<string>)
    requires lo <= hi <= |s| && s[lo..hi] == With("", host) + With(":", port) && ServerIsClear(host, port)
    ensures ServerInfoIn(s, lo, hi) == (At(host, lo), At(port, lo + |With("", host)| + 1))
  {
    hide ServerInfoIn, Enclosed, Free;
    ServerLength(s, lo, hi, host, port);
    match (host, port)
    case (None, None) => NoServer(s, lo);
    case (None, Some(p)) => NoHost(s, lo, hi, p);
    case (Some(h), None) => HostAlone(s, lo, hi, h);
    case (Some(h), Some(p)) => HostAndPort(s, lo, hi, h, p);
  }

  lemma ServerLength(s: string, lo: nat, hi: nat, host: Option<string>, port: Option<string>)
    requires lo <= hi <= |s| && s[lo..hi] == With("", host) + With(":", port)
    ensures hi == lo + |With("", host)| + |With(":", port)|
    ensures host.Some? ==> With("", host) == host.value
    ensures port.None? ==> s[lo..hi] == With("", host)
    ensures host.None? ==> s[lo..hi] == With(":", port)
  {
    var a, b := With("", host), With(":", port);
    TwoParts(s, lo, hi, a, b);
    EmptySides(a);
    EmptySides(b);
    if host.Some? {
      EmptySides(host.value);
    }
  }

  lemma EmptySides(x: string)
    ensures "" + x == x == x + ""
  {
  }

  lemma NoServer(s: string, lo: nat)
    requires lo <= |s|
    ensures ServerInfoIn(s, lo, lo) == (NONE, NONE)
  {
  }

  lemma ServerHasNoSign(host: Option<string>, port: Option<string>)
    requires ServerIsClear(host, port)
    ensures Free(With("", host) + With(":", port), {'@'})
  {
  }

  lemma AuthoritySection(s: string, lo: nat, hi: nat, u: Url)
    requires lo <= hi <= |s| && s[lo..hi] == AuthorityText(u)
    requires UserIsClear(u.user, u.password) && ServerIsClear(u.host, u.port)
    ensures var server := lo + |UserText(u)|;
      AuthorityIn(s, lo, hi) == (At(u.user, lo), At(u.password, lo + |With("", u.user)| + 1),
                                 At(u.host, server), At(u.port, server + |With("", u.host)| + 1))
  {
    hide UserInfoIn, ServerInfoIn, ServerIsClear;
    var server := lo + |UserText(u)|;
    TwoParts(s, lo, hi, UserText(u), ServerText(u));
    ServerHasNoSign(u.host, u.port);
    ServerSection(s, server, hi, u.host, u.port);
    if u.user.Some? {
      var info := u.user.value + With(":", u.password);
      TwoParts(s, lo, server, info, "@");
      LastInSegment(s, lo, server - 1, hi, {'@'}, ServerText(u));
      UserSection(s, lo, server - 1, u.user.value, u.password);
      assert With("", u.user) == u.user.value;
    } else {
      LastInSegment(s, lo, lo - 1, hi, {'@'}, ServerText(u));
      if lo == hi {
        NoServer(s, lo);
      }
    }
  }

  lemma HashAndQuestion(s: string, lo: nat, hi: nat, file: string, asked: string, ref: string)
    requires lo <= hi <= |s| && s[lo..hi] == file + (asked + ref)
    requires Free(file, {'?', '#'}) && Free(asked, {'#'})
    requires (asked != "" ==> asked[0] == '?') && (ref != "" ==> ref[0] == '#')
    ensures var question, hash := lo + |file|, lo + |file| + |asked|;
      hash <= hi && FirstIn(s, lo, hi, {'#'}) == hash && FirstIn(s, lo, hash, {'?'}) == question
  {
    var question, hash := lo + |file|, lo + |file| + |asked|;
    assert file + (asked + ref) == (file + asked) + ref;
    TwoParts(s, lo, hi, file + asked, ref);
    TwoParts(s, lo, hash, file, asked);
    assert Free(file + asked, {'#'}) && Free(file, {'?'});
    FirstInSegment(s, lo, hash, hi, {'#'}, file + asked);
    FirstInSegment(s, lo, question, hash, {'?'}, file);
  }

  lemma PathSection(s: string, lo: nat, hi: nat, path: Option<string>, query: Option<string>, ref: Option<string>)
    requires lo <= hi <= |s| && s[lo..hi] == With("", path) + (With("?", query) + With("#", ref))
    requires PathIsClear(path, query)
    ensures var question := lo + |With("", path)|;
      PathIn(s, lo, hi) == (At(path, lo), At(query, question + 1), At(ref, question + |With("?", query)| + 1))
  {
    hide Free;
    var file, asked := With("", path), With("?", query);
    FreeWith("", path, {'?', '#'});
    FreeWith("?", query, {'#'});
    TwoParts(s, lo, hi, file, asked + With("#", ref));
    HashAndQuestion(s, lo, hi, file, asked, With("#", ref));
  }

  lemma FreeWith(delimiter: string, part: Option<string>, stops: set<char>)
    requires (forall i :: 0 <= i < |delimiter| ==> delimiter[i] !in stops) && (part.Some? ==> Free(part.value, stops))
    ensures Free(With(delimiter, part), stops)
    ensures |With(delimiter, part)| == if part.Some? then |delimiter| + |part.value| else 0
    ensures With(delimiter, part) != "" && delimiter != "" ==> With(delimiter, part)[0] == delimiter[0]
  {
  }

  // ---- The whole URL ----

  /** s is the printed URL from lo to hi, with nothing but blanks around it. */
  ghost predicate Printed(s: string, lo: nat, hi: nat, u: Url) {
    lo == TrimmedBegin(s) <= hi == TrimmedEnd(s) <= |s| && s[lo..hi] == Print(u)
  }

  lemma SchemeSection(s: string, lo: nat, hi: nat, u: Url)
    requires Printed(s, lo, hi, u) && WellFormed(u)
    ensures lo + |SchemeText(u)| <= hi && s[lo + |SchemeText(u)|..hi] == AfterSchemeText(u)
    ensures SchemeIn(s, hi) == At(u.scheme, lo) && AfterScheme(s) == lo + |SchemeText(u)|
  {
    hide AfterSchemeText, TrimmedEnd, TrimmedBegin, TrimFront;
    TrimmedBeginAgrees(s);
    TwoParts(s, lo, hi, SchemeText(u), AfterSchemeText(u));
    if u.scheme.Some? {
      var colon := lo + |u.scheme.value|;
      TwoParts(s, lo, colon + 1, u.scheme.value, ":");
      FirstInSegment(s, lo, colon, hi, {':'}, u.scheme.value);
    } else {
      FirstInSegment(s, lo, hi, hi, {':'}, AfterSchemeText(u));
    }
  }

  lemma SlashesUpTo(s: string, lo: nat, k: nat, hi: nat)
    requires lo <= k <= hi <= |s| && (k < hi ==> !IsURLSlash(s[k])) && forall j :: lo <= j < k ==> IsURLSlash(s[j])
    ensures SlashesEnd(s, lo, hi) == k
  {
  }

  /** The slashes end where the authority, or else the query or the reference, begins. */
  lemma SlashSection(s: string, lo: nat, hi: nat, u: Url)
    requires lo <= hi <= |s| && s[lo..hi] == AfterSchemeText(u) && AllIn(u.slashes, {'/', '\\'})
    requires Free(AuthorityText(u), {'/', '\\', '?', '#'}) && (AuthorityText(u) == "" ==> u.path.None?)
    ensures var mid := lo + |u.slashes|;
      mid <= hi && s[mid..hi] == AuthorityText(u) + PathText(u) && SlashesEnd(s, lo, hi) == mid
  {
    hide AuthorityText;
    var mid := lo + |u.slashes|;
    TwoParts(s, lo, hi, u.slashes, AuthorityText(u) + PathText(u));
    forall j | lo <= j < mid ensures IsURLSlash(s[j]) {
      assert s[j] == u.slashes[j - lo];
    }
    if mid < hi {
      if AuthorityText(u) != "" {
        assert s[mid] == AuthorityText(u)[0] && s[mid] in AuthorityText(u);
      } else {
        assert s[mid] == PathText(u)[0];
      }
    }
    SlashesUpTo(s, lo, mid, hi);
  }

  lemma PathBegins(u: Url)
    requires PathIsClear(u.path, u.query) && PathText(u) != ""
    ensures PathText(u)[0] in AUTHORITY_TERMINATORS
  {
  }

  /** The authority ends where the path, the query or the reference begins. */
  lemma AuthorityEnds(s: string, lo: nat, hi: nat, u: Url)
    requires lo <= hi <= |s| && s[lo..hi] == AuthorityText(u) + PathText(u)
    requires Free(AuthorityText(u), {'/', '\\', '?', '#'}) && PathIsClear(u.path, u.query)
    ensures var mid := lo + |AuthorityText(u)|;
      && mid <= hi && s[lo..mid] == AuthorityText(u) && s[mid..hi] == PathText(u)
      && FirstIn(s, lo, hi, AUTHORITY_TERMINATORS) == mid
  {
    hide AuthorityText, PathText;
    var mid := lo + |AuthorityText(u)|;
    TwoParts(s, lo, hi, AuthorityText(u), PathText(u));
    if PathText(u) != "" {
      PathBegins(u);
    }
    FirstInSegment(s, lo, mid, hi, AUTHORITY_TERMINATORS, AuthorityText(u));
  }

  lemma PrintedParses(s: string, lo: nat, hi: nat, u: Url)
    requires Printed(s, lo, hi, u) && WellFormed(u)
    ensures StandardURL(s) == PlacedAt(u, lo)
  {
    hide AuthorityIn, PathIn, AuthorityText, PathText, SchemeText, UserText, AfterSchemeText, SchemeIn, AfterScheme,
      TrimmedBegin, TrimmedEnd, UserIsClear, ServerIsClear, PathIsClear, Solid;
    SchemeSection(s, lo, hi, u);
    var slash := lo + |SchemeText(u)|;
    SlashSection(s, slash, hi, u);
    var begin := slash + |u.slashes|;
    AuthorityEnds(s, begin, hi, u);
    var mid := begin + |AuthorityText(u)|;
    AuthoritySection(s, begin, mid, u);
    PathOfText(s, mid, hi, u);
  }

  lemma PathOfText(s: string, lo: nat, hi: nat, u: Url)
    requires lo <= hi <= |s| && s[lo..hi] == PathText(u) && PathIsClear(u.path, u.query)
    ensures var question := lo + |With("", u.path)|;
      PathIn(s, lo, hi) == (At(u.path, lo), At(u.query, question + 1), At(u.ref, question + |With("?", u.query)| + 1))
  {
    PathSection(s, lo, hi, u.path, u.query, u.ref);
  }

  ghost predicate Blank(s: string) {
    forall i :: 0 <= i < |s| ==> IsBlank(s[i])
  }

  lemma TrimmedTo(s: string, front: string, text: string, back: string)
    requires s == front + text + back && Blank(front) && Blank(back) && Solid(text) && text != ""
    ensures TrimmedBegin(s) == |front| && TrimmedEnd(s) == |front| + |text|
    ensures s[|front|..|front| + |text|] == text
  {
    var lo, hi := |front|, |front| + |text|;
    forall j | 0 <= j < lo ensures ShouldTrimFromURL(s[j]) {
      assert s[j] == front[j];
    }
    forall j | hi <= j < |s| ensures ShouldTrimFromURL(s[j]) {
      assert s[j] == back[j - hi];
    }
    assert s[lo] == text[0] && s[hi - 1] == text[|text| - 1];
  }

  lemma BlankParses(s: string)
    requires Blank(s)
    ensures StandardURL(s) == Parsed(NONE, NONE, NONE, NONE, NONE, NONE, NONE, NONE)
  {
    assert TrimmedBegin(s) == |s|;
  }

  lemma NothingPlaced(u: Url, lo: nat)
    requires Print(u) == "" && WellFormed(u)
    ensures PlacedAt(u, lo) == Parsed(NONE, NONE, NONE, NONE, NONE, NONE, NONE, NONE)
  {
    assert |SchemeText(u)| + |u.slashes| + |UserText(u)| + |ServerText(u)| + |PathText(u)| == |Print(u)|;
  }

  /** Whatever parts a URL has, with or without blanks around it: the parser finds each
      part where it was printed, and finds no others. */
  lemma PrintedUrlParses(front: string, u: Url, back: string)
    requires WellFormed(u) && Blank(front) && Blank(back)
    ensures StandardURL(front + Print(u) + back) == PlacedAt(u, |front|)
  {
    hide StandardURL, PlacedAt, WellFormed, Print;
    var s := front + Print(u) + back;
    if Print(u) == "" {
      NothingPlaced(u, |front|);
      BlankParses(s);
    } else {
      SolidPrint(u);
      TrimmedTo(s, front, Print(u), back);
      PrintedParses(s, |front|, |front| + |Print(u)|, u);
    }
  }

  lemma SolidPrint(u: Url)
    requires WellFormed(u)
    ensures Solid(Print(u))
  {
  }

  // ---- The text of the parts ----

  /** The component is there exactly when the part is, and holds its text. */
  ghost predicate Reads(s: string, c: Component, part: Option<string>) {
    if part.Some? then 0 <= c.begin <= c.End() <= |s| && TextOf(s, c) == part.value else c == NONE
  }

  lemma PartReads(s: string, begin: nat, delimiter: string, part: Option<string>, hi: nat)
    requires begin <= hi <= |s| && s[begin..hi] == With(delimiter, part)
    ensures Reads(s, At(part, begin + |delimiter|), part)
  {
    if part.Some? {
      TwoParts(s, begin, hi, delimiter, part.value);
    }
  }

  lemma ServerReads(s: string, lo: nat, hi: nat, u: Url)
    requires lo <= hi <= |s| && s[lo..hi] == ServerText(u)
    ensures Reads(s, At(u.host, lo), u.host) && Reads(s, At(u.port, lo + |With("", u.host)| + 1), u.port)
  {
    hide With, Reads, At;
    var mid := lo + |With("", u.host)|;
    TwoParts(s, lo, hi, With("", u.host), With(":", u.port));
    PartReads(s, lo, "", u.host, mid);
    PartReads(s, mid, ":", u.port, hi);
  }

  lemma UserReads(s: string, lo: nat, hi: nat, u: Url)
    requires lo <= hi <= |s| && s[lo..hi] == UserText(u) && UserIsClear(u.user, u.password)
    ensures Reads(s, At(u.user, lo), u.user) && Reads(s, At(u.password, lo + |With("", u.user)| + 1), u.password)
  {
    hide Reads, At;
    if u.user.Some? {
      var user := u.user.value;
      var mid := lo + |user|;
      EmptySides(user);
      TwoParts(s, lo, hi, user + With(":", u.password), "@");
      TwoParts(s, lo, hi - 1, user, With(":", u.password));
      PartReads(s, lo, "", u.user, mid);
      PartReads(s, mid, ":", u.password, hi - 1);
    } else {
      PartReads(s, lo, "", u.user, lo);
      PartReads(s, lo, ":", u.password, lo);
    }
  }

  lemma PathReads(s: string, lo: nat, hi: nat, u: Url)
    requires lo <= hi <= |s| && s[lo..hi] == PathText(u)
    ensures var question := lo + |With("", u.path)|;
      && Reads(s, At(u.path, lo), u.path) && Reads(s, At(u.query, question + 1), u.query)
      && Reads(s, At(u.ref, question + |With("?", u.query)| + 1), u.ref)
  {
    hide With, Reads, At;
    var question := lo + |With("", u.path)|;
    var hash := question + |With("?", u.query)|;
    TwoParts(s, lo, hi, With("", u.path), With("?", u.query) + With("#", u.ref));
    TwoParts(s, question, hi, With("?", u.query), With("#", u.ref));
    PartReads(s, lo, "", u.path, question);
    PartReads(s, question, "?", u.query, hash);
    PartReads(s, hash, "#", u.ref, hi);
  }

  lemma SchemeReads(s: string, lo: nat, hi: nat, u: Url)
    requires lo <= hi <= |s| && s[lo..hi] == SchemeText(u)
    ensures Reads(s, At(u.scheme, lo), u.scheme)
  {
    if u.scheme.Some? {
      TwoParts(s, lo, hi, u.scheme.value, ":");
    }
  }

  lemma AuthorityReads(s: string, lo: nat, hi: nat, u: Url)
    requires lo <= hi <= |s| && s[lo..hi] == AuthorityText(u) && UserIsClear(u.user, u.password)
    ensures var server := lo + |UserText(u)|;
      && Reads(s, At(u.user, lo), u.user) && Reads(s, At(u.password, lo + |With("", u.user)| + 1), u.password)
      && Reads(s, At(u.host, server), u.host) && Reads(s, At(u.port, server + |With("", u.host)| + 1), u.port)
  {
    hide Reads, At, With, UserText, ServerText, UserIsClear;
    var server := lo + |UserText(u)|;
    TwoParts(s, lo, hi, UserText(u), ServerText(u));
    UserReads(s, lo, server, u);
    ServerReads(s, server, hi, u);
  }

  ghost predicate AllRead(s: string, p: Parsed, u: Url) {
    && Reads(s, p.scheme, u.scheme) && Reads(s, p.username, u.user) && Reads(s, p.password, u.password)
    && Reads(s, p.host, u.host) && Reads(s, p.port, u.port)
    && Reads(s, p.path, u.path) && Reads(s, p.query, u.query) && Reads(s, p.ref, u.ref)
  }

  lemma Sections(s: string, lo: nat, hi: nat, u: Url)
    requires lo <= hi <= |s| && s[lo..hi] == Print(u)
    ensures var slash := lo + |SchemeText(u)|;
      var begin := slash + |u.slashes|;
      var mid := begin + |AuthorityText(u)|;
      && slash <= begin <= mid <= hi
      && s[lo..slash] == SchemeText(u) && s[begin..mid] == AuthorityText(u) && s[mid..hi] == PathText(u)
  {
    hide SchemeText, AuthorityText, PathText;
    var slash := lo + |SchemeText(u)|;
    var begin := slash + |u.slashes|;
    TwoParts(s, lo, hi, SchemeText(u), AfterSchemeText(u));
    TwoParts(s, slash, hi, u.slashes, AuthorityText(u) + PathText(u));
    TwoParts(s, begin, hi, AuthorityText(u), PathText(u));
  }

  lemma PlacedReads(s: string, lo: nat, hi: nat, u: Url)
    requires lo <= hi <= |s| && s[lo..hi] == Print(u) && UserIsClear(u.user, u.password)
    ensures AllRead(s, PlacedAt(u, lo), u)
  {
    hide Reads, At, With, SchemeText, UserText, AuthorityText, PathText, UserIsClear, Print;
    var slash := lo + |SchemeText(u)|;
    var begin := slash + |u.slashes|;
    var mid := begin + |AuthorityText(u)|;
    Sections(s, lo, hi, u);
    SchemeReads(s, lo, slash, u);
    AuthorityReads(s, begin, mid, u);
    PathReads(s, mid, hi, u);
  }

  /** The parser reads back the text of every part, and what was absent is absent. */
  lemma PrintedUrlReads(front: string, u: Url, back: string)
    requires WellFormed(u) && Blank(front) && Blank(back)
    ensures var s := front + Print(u) + back;
      AllRead(s, StandardURL(s), u)
  {
    hide StandardURL, PlacedAt, Print, AllRead;
    var s := front + Print(u) + back;
    PrintedUrlParses(front, u, back);
    assert s[|front|..|front| + |Print(u)|] == Print(u);
    PlacedReads(s, |front|, |front| + |Print(u)|, u);
  }
}
