// The standard-URL parser: scanning methods that return components as offsets
// and lengths, each proved against a search on the whole slice.

module UrlParse {
  import opened Text

  /** A substring by offset and length; length -1 means the component is absent. */
  datatype Component = Component(begin: int, len: int) {
    function End(): int { begin + len }
    predicate IsValid() { len != -1 }
    predicate IsNonempty() { len > 0 }
  }

  const NONE := Component(0, -1)

  function MakeRange(begin: int, end: int): Component { Component(begin, end - begin) }

  datatype Parsed = Parsed(
    scheme: Component, username: Component, password: Component, host: Component,
    port: Component, path: Component, query: Component, ref: Component)

  const SLASHES := {'/', '\\'}
  const AUTHORITY_TERMINATORS := {'/', '\\', '?', '#'}

  predicate IsURLSlash(ch: char) { ch in SLASHES }

  predicate IsAuthorityTerminator(ch: char) { IsURLSlash(ch) || ch == '?' || ch == '#' }

  /** Characters are bytes. The source compares a signed char with ' ', so the
      bytes from 0x80 up count as trimmable along with blanks and controls. */
  predicate ShouldTrimFromURL(ch: char) { ch <= ' ' || ch >= '\U{80}' }

  // ---- What the parser computes, as searches over the input ----

  function TrimFront(s: string, lo: nat, hi: nat): (i: nat)
    requires lo <= hi <= |s|
    ensures lo <= i <= hi
    ensures forall j :: lo <= j < i ==> ShouldTrimFromURL(s[j])
    ensures i < hi ==> !ShouldTrimFromURL(s[i])
    decreases hi - lo
  {
    if lo == hi || !ShouldTrimFromURL(s[lo]) then lo else TrimFront(s, lo + 1, hi)
  }

  function TrimBack(s: string, lo: nat, hi: nat): (i: nat)
    requires lo <= hi <= |s|
    ensures lo <= i <= hi
    ensures forall j :: i <= j < hi ==> ShouldTrimFromURL(s[j])
    ensures lo < i ==> !ShouldTrimFromURL(s[i - 1])
    decreases hi - lo
  {
    if lo == hi || !ShouldTrimFromURL(s[hi - 1]) then hi else TrimBack(s, lo, hi - 1)
  }

  function TrimmedBegin(s: string): nat { TrimFront(s, 0, |s|) }

  function TrimmedEnd(s: string): (e: nat)
    ensures TrimmedBegin(s) <= e <= |s|
  {
    TrimBack(s, TrimmedBegin(s), |s|)
  }

  function SlashesEnd(s: string, lo: nat, hi: nat): (i: nat)
    requires lo <= hi <= |s|
    ensures lo <= i <= hi
    ensures forall j :: lo <= j < i ==> IsURLSlash(s[j])
    ensures i < hi ==> !IsURLSlash(s[i])
    decreases hi - lo
  {
    if lo == hi || !IsURLSlash(s[lo]) then lo else SlashesEnd(s, lo + 1, hi)
  }

  /** Everything from the first untrimmed character to the first colon. */
  function SchemeIn(s: string, hi: nat): (scheme: Component)
    requires hi <= |s|
  {
    var begin := TrimFront(s, 0, hi);
    var colon := FirstIn(s, begin, hi, {':'});
    if colon == hi then NONE else MakeRange(begin, colon)
  }

  function UserInfoIn(s: string, lo: nat, hi: nat): (r: (Component, Component))
    requires lo <= hi <= |s|
  {
    var colon := FirstIn(s, lo, hi, {':'});
    (MakeRange(lo, colon), if colon < hi then MakeRange(colon + 1, hi) else NONE)
  }

  /** Where an IPv6 literal ends, as far as the port colon is concerned. */
  function BracketIn(s: string, lo: nat, hi: nat): int
    requires lo < hi <= |s|
  {
    var bracket := LastIn(s, lo, hi, {']'});
    if lo <= bracket then bracket else if s[lo] == '[' then hi else -1
  }

  function ServerInfoIn(s: string, lo: nat, hi: nat): (r: (Component, Component))
    requires lo <= hi <= |s|
  {
    if lo == hi then (NONE, NONE)
    else
      var colon := LastIn(s, lo, hi, {':'});
      if lo <= colon && BracketIn(s, lo, hi) < colon then
        (if colon == lo then NONE else MakeRange(lo, colon), MakeRange(colon + 1, hi))
      else
        (MakeRange(lo, hi), NONE)
  }

  /** User name, password, host and port of the authority section [lo, hi). */
  function AuthorityIn(s: string, lo: nat, hi: nat): (r: (Component, Component, Component, Component))
    requires lo <= hi <= |s|
  {
    if lo == hi then (NONE, NONE, NONE, NONE)
    else
      var at := LastIn(s, lo, hi, {'@'});
      if lo <= at then
        var (username, password) := UserInfoIn(s, lo, at);
        var (host, port) := ServerInfoIn(s, at + 1, hi);
        (username, password, host, port)
      else
        var (host, port) := ServerInfoIn(s, lo, hi);
        (NONE, NONE, host, port)
  }

  /** File path, query and reference of the section [lo, hi). */
  function PathIn(s: string, lo: nat, hi: nat): (r: (Component, Component, Component))
    requires lo <= hi <= |s|
  {
    var hash := FirstIn(s, lo, hi, {'#'});
    var question := FirstIn(s, lo, hash, {'?'});
    (if question == lo then NONE else MakeRange(lo, question),
     if question == hash then NONE else MakeRange(question + 1, hash),
     if hash == hi then NONE else MakeRange(hash + 1, hi))
  }

  function AfterScheme(s: string): (i: nat)
    ensures TrimmedBegin(s) <= i <= TrimmedEnd(s)
  {
    var end := TrimmedEnd(s);
    var scheme := SchemeIn(s, end);
    TrimmedBeginAgrees(s);
    if scheme.IsValid() then scheme.End() + 1 else TrimmedBegin(s)
  }

  function AuthorityBegin(s: string): (i: nat)
    ensures AfterScheme(s) <= i <= TrimmedEnd(s)
  {
    SlashesEnd(s, AfterScheme(s), TrimmedEnd(s))
  }

  function AuthorityEnd(s: string): (i: nat)
    ensures AuthorityBegin(s) <= i <= TrimmedEnd(s)
  {
    FirstIn(s, AuthorityBegin(s), TrimmedEnd(s), AUTHORITY_TERMINATORS)
  }

  /** The two halves after the slashes, put together with the scheme. */
  function Assemble(s: string, scheme: Component, lo: nat, mid: nat, hi: nat): Parsed
    requires lo <= mid <= hi <= |s|
  {
    var authority := AuthorityIn(s, lo, mid);
    var rest := PathIn(s, mid, hi);
    Parsed(scheme, authority.0, authority.1, authority.2, authority.3, rest.0, rest.1, rest.2)
  }

  function StandardURL(s: string): Parsed {
    Assemble(s, SchemeIn(s, TrimmedEnd(s)), AuthorityBegin(s), AuthorityEnd(s), TrimmedEnd(s))
  }

  /** Leading blanks are the same with or without the trailing ones. */
  lemma TrimmedBeginAgrees(s: string)
    ensures TrimFront(s, 0, TrimmedEnd(s)) == TrimmedBegin(s)
  {
  }

  lemma AssembleFrom(s: string, p: Parsed, lo: nat, mid: nat, hi: nat)
    requires lo <= mid <= hi <= |s|
    requires (p.username, p.password, p.host, p.port) == AuthorityIn(s, lo, mid)
    requires (p.path, p.query, p.ref) == PathIn(s, mid, hi)
    ensures p == Assemble(s, p.scheme, lo, mid, hi)
  {
  }

  lemma NoPath(s: string, hi: nat)
    requires hi <= |s|
    ensures PathIn(s, hi, hi) == (NONE, NONE, NONE)
  {
  }

  // ---- The scanning code ----

  method TrimURL(spec: string, begin0: nat, len0: nat) returns (begin: nat, len: nat)
    requires begin0 <= len0 <= |spec|
    ensures begin == TrimFront(spec, begin0, len0)
    ensures len == TrimBack(spec, begin, len0)
  {
    begin, len := begin0, len0;
    while begin < len && ShouldTrimFromURL(spec[begin])
      invariant begin0 <= begin <= len == len0
      invariant TrimFront(spec, begin, len0) == TrimFront(spec, begin0, len0)
    {
      begin := begin + 1;
    }
    while len > begin && ShouldTrimFromURL(spec[len - 1])
      invariant begin <= len <= len0
      invariant TrimBack(spec, begin, len) == TrimBack(spec, begin, len0)
    {
      len := len - 1;
    }
  }

  method CountConsecutiveSlashes(str: string, beginOffset: nat, strLen: nat) returns (count: nat)
    requires beginOffset <= strLen <= |str|
    ensures beginOffset + count == SlashesEnd(str, beginOffset, strLen)
  {
    count := 0;
    while beginOffset + count < strLen && IsURLSlash(str[beginOffset + count])
      invariant beginOffset + count <= strLen
      invariant SlashesEnd(str, beginOffset + count, strLen) == SlashesEnd(str, beginOffset, strLen)
    {
      count := count + 1;
    }
  }

  method FindNextAuthorityTerminator(spec: string, startOffset: nat, specLen: nat) returns (r: nat)
    requires startOffset <= specLen <= |spec|
    ensures r == FirstIn(spec, startOffset, specLen, AUTHORITY_TERMINATORS)
  {
    for i := startOffset to specLen
      invariant FirstIn(spec, i, specLen, AUTHORITY_TERMINATORS)
             == FirstIn(spec, startOffset, specLen, AUTHORITY_TERMINATORS)
    {
      if IsAuthorityTerminator(spec[i]) {
        return i;
      }
    }
    return specLen;
  }

  method ExtractScheme(url: string, urlLen: nat) returns (found: bool, scheme: Component)
    requires urlLen <= |url|
    ensures scheme == SchemeIn(url, urlLen)
    ensures found == scheme.IsValid()
  {
    var begin := 0;
    while begin < urlLen && ShouldTrimFromURL(url[begin])
      invariant 0 <= begin <= urlLen
      invariant TrimFront(url, begin, urlLen) == TrimFront(url, 0, urlLen)
    {
      begin := begin + 1;
    }
    if begin == urlLen {
      return false, NONE;
    }
    for i := begin to urlLen
      invariant FirstIn(url, i, urlLen, {':'}) == FirstIn(url, begin, urlLen, {':'})
    {
      if url[i] == ':' {
        return true, MakeRange(begin, i);
      }
    }
    return false, NONE;
  }

  method ParseUserInfo(spec: string, user: Component) returns (username: Component, password: Component)
    requires 0 <= user.begin && 0 <= user.len && user.End() <= |spec|
    ensures (username, password) == UserInfoIn(spec, user.begin, user.End())
  {
    var colonOffset := 0;
    while colonOffset < user.len && spec[user.begin + colonOffset] != ':'
      invariant 0 <= colonOffset <= user.len
      invariant FirstIn(spec, user.begin + colonOffset, user.End(), {':'})
             == FirstIn(spec, user.begin, user.End(), {':'})
    {
      colonOffset := colonOffset + 1;
    }
    if colonOffset < user.len {
      username := Component(user.begin, colonOffset);
      password := MakeRange(user.begin + colonOffset + 1, user.begin + user.len);
    } else {
      username := user;
      password := NONE;
    }
  }

  method ParseServerInfo(spec: string, serverinfo: Component) returns (hostname: Component, port: Component)
    requires 0 <= serverinfo.begin && 0 <= serverinfo.len && serverinfo.End() <= |spec|
    ensures (hostname, port) == ServerInfoIn(spec, serverinfo.begin, serverinfo.End())
  {
    if serverinfo.len == 0 {
      return NONE, NONE;
    }
    var lo, hi := serverinfo.begin, serverinfo.End();
    var ipv6Terminator := if spec[lo] == '[' then hi else -1;
    var colon := -1;
    for i := lo to hi
      invariant LastIn(spec, lo, i, {':'}) == if colon == -1 then lo - 1 else colon
      invariant colon == -1 || lo <= colon < i
      invariant ipv6Terminator ==
        if lo <= LastIn(spec, lo, i, {']'}) then LastIn(spec, lo, i, {']'})
        else if spec[lo] == '[' then hi else -1
    {
      match spec[i]
      case ']' => ipv6Terminator := i;
      case ':' => colon := i;
      case _ =>
    }
    if colon > ipv6Terminator {
      hostname := MakeRange(lo, colon);
      if hostname.len == 0 {
        hostname := NONE;
      }
      port := MakeRange(colon + 1, hi);
    } else {
      hostname, port := serverinfo, NONE;
    }
  }

  method ParseAuthority(spec: string, auth: Component)
    returns (username: Component, password: Component, hostname: Component, port: Component)
    requires 0 <= auth.begin && 0 <= auth.len && auth.End() <= |spec|
    ensures (username, password, hostname, port) == AuthorityIn(spec, auth.begin, auth.End())
  {
    if auth.len == 0 {
      return NONE, NONE, NONE, NONE;
    }
    var i := auth.begin + auth.len - 1;
    while i > auth.begin && spec[i] != '@'
      invariant auth.begin <= i < auth.End()
      invariant forall j :: i < j < auth.End() ==> spec[j] != '@'
    {
      i := i - 1;
    }
    ghost var at := LastIn(spec, auth.begin, auth.End(), {'@'});
    assert at == if spec[i] == '@' then i else auth.begin - 1;
    if spec[i] == '@' {
      username, password := ParseUserInfo(spec, Component(auth.begin, i - auth.begin));
      hostname, port := ParseServerInfo(spec, MakeRange(i + 1, auth.begin + auth.len));
    } else {
      username, password := NONE, NONE;
      hostname, port := ParseServerInfo(spec, auth);
    }
  }

  method ParsePath(spec: string, path: Component)
    returns (filepath: Component, query: Component, ref: Component)
    requires path == NONE || (0 <= path.begin && 0 < path.len && path.End() <= |spec|)
    ensures path == NONE ==> filepath == query == ref == NONE
    ensures path != NONE ==> (filepath, query, ref) == PathIn(spec, path.begin, path.End())
  {
    if path.len == -1 {
      return NONE, NONE, NONE;
    }
    var lo, pathEnd := path.begin, path.begin + path.len;
    var querySeparator, refSeparator := -1, -1;
    for i := lo to pathEnd
      invariant if refSeparator == -1 then '#' !in spec[lo..i]
                else lo <= refSeparator < i && spec[refSeparator] == '#' && '#' !in spec[lo..refSeparator]
      invariant var hash := if refSeparator == -1 then i else refSeparator;
                if querySeparator == -1 then '?' !in spec[lo..hash]
                else lo <= querySeparator < hash && spec[querySeparator] == '?' && '?' !in spec[lo..querySeparator]
    {
      assert spec[lo..i + 1] == spec[lo..i] + [spec[i]];
      match spec[i]
      case '?' =>
        // Only a query that precedes the reference counts, and only the first.
        if refSeparator < 0 && querySeparator < 0 {
          querySeparator := i;
        }
      case '#' =>
        if refSeparator < 0 {
          refSeparator := i;
        }
      case _ =>
    }
    ghost var hash := if refSeparator == -1 then pathEnd else refSeparator;
    ghost var question := if querySeparator == -1 then hash else querySeparator;
    FirstInSegment(spec, lo, hash, pathEnd, {'#'}, spec[lo..hash]);
    FirstInSegment(spec, lo, question, hash, {'?'}, spec[lo..question]);
    var fileEnd, queryEnd;
    if refSeparator >= 0 {
      fileEnd, queryEnd := refSeparator, refSeparator;
      ref := MakeRange(refSeparator + 1, pathEnd);
    } else {
      fileEnd, queryEnd := pathEnd, pathEnd;
      ref := NONE;
    }
    if querySeparator >= 0 {
      fileEnd := querySeparator;
      query := MakeRange(querySeparator + 1, queryEnd);
    } else {
      query := NONE;
    }
    if fileEnd != lo {
      filepath := MakeRange(lo, fileEnd);
    } else {
      filepath := NONE;
    }
  }

  method ParseAfterScheme(spec: string, specLen: nat, afterScheme: nat, scheme: Component)
    returns (parsed: Parsed)
    requires afterScheme <= specLen <= |spec|
    ensures var lo := SlashesEnd(spec, afterScheme, specLen);
            var mid := FirstIn(spec, lo, specLen, AUTHORITY_TERMINATORS);
            parsed == Assemble(spec, scheme, lo, mid, specLen)
  {
    hide AuthorityIn, PathIn, Assemble;
    var numSlashes := CountConsecutiveSlashes(spec, afterScheme, specLen);
    var afterSlashes := afterScheme + numSlashes;
    var endAuth := FindNextAuthorityTerminator(spec, afterSlashes, specLen);
    var authority := Component(afterSlashes, endAuth - afterSlashes);
    var fullPath := if endAuth == specLen then NONE else Component(endAuth, specLen - endAuth);
    var username, password, host, port := ParseAuthority(spec, authority);
    var path, query, ref := ParsePath(spec, fullPath);
    NoPath(spec, specLen);
    parsed := Parsed(scheme, username, password, host, port, path, query, ref);
    AssembleFrom(spec, parsed, afterSlashes, endAuth, specLen);
  }

  method ParseStandardURL(spec: string) returns (parsed: Parsed)
    ensures parsed == StandardURL(spec)
  {
    hide Assemble;
    var begin, specLen := TrimURL(spec, 0, |spec|);
    TrimmedBeginAgrees(spec);
    var found, scheme := ExtractScheme(spec, specLen);
    var afterScheme := if found then scheme.End() + 1 else begin;
    parsed := ParseAfterScheme(spec, specLen, afterScheme, scheme);
  }
}
