// The --vmodule pattern matcher against the declarative meaning of a pattern.

module Glob {

  /** One pattern character stands for a whole piece of text: a star for any
      text, a question mark for any one character, either slash for either
      slash, and any other character for itself. */
  predicate Piece(p: char, piece: string) {
    p == '*' || (|piece| == 1 && One(p, piece[0]))
  }

  predicate One(p: char, c: char) {
    if p == '/' || p == '\\' then c == '/' || c == '\\'
    else p == '?' || p == c
  }

  function Concat(pieces: seq<string>): string {
    if pieces == [] then "" else pieces[0] + Concat(pieces[1..])
  }

  /** The text can be cut into one piece for every pattern character. */
  ghost predicate IsCutting(s: string, p: string, pieces: seq<string>) {
    && |pieces| == |p| && Concat(pieces) == s
    && forall i :: 0 <= i < |p| ==> Piece(p[i], pieces[i])
  }

  ghost predicate InLanguage(s: string, p: string) {
    exists pieces :: IsCutting(s, p, pieces)
  }

  lemma EmptyPattern(s: string)
    ensures InLanguage(s, "") <==> s == ""
  {
    if s == "" {
      assert IsCutting(s, "", []);
    }
  }

  /** A cutting, seen as its first piece and the rest. */
  lemma FirstPiece(s: string, p: string, n: nat)
    requires p != "" && n <= |s| && Piece(p[0], s[..n]) && InLanguage(s[n..], p[1..])
    ensures InLanguage(s, p)
  {
    var pieces :| IsCutting(s[n..], p[1..], pieces);
    assert IsCutting(s, p, [s[..n]] + pieces) by {
      assert ([s[..n]] + pieces)[1..] == pieces;
      assert s[..n] + s[n..] == s;
    }
  }

  lemma CutFirst(s: string, p: string) returns (n: nat)
    requires p != "" && InLanguage(s, p)
    ensures n <= |s| && Piece(p[0], s[..n]) && InLanguage(s[n..], p[1..])
  {
    var pieces :| IsCutting(s, p, pieces);
    n := |pieces[0]|;
    assert s == pieces[0] + Concat(pieces[1..]);
    assert s[..n] == pieces[0] && s[n..] == Concat(pieces[1..]);
    assert IsCutting(s[n..], p[1..], pieces[1..]);
  }

  /** A pattern character other than a star takes exactly one character. */
  lemma OneStep(s: string, p: string)
    requires p != "" && p[0] != '*'
    ensures InLanguage(s, p) <==> s != "" && One(p[0], s[0]) && InLanguage(s[1..], p[1..])
  {
    if InLanguage(s, p) {
      var n := CutFirst(s, p);
      assert s[..n][0] == s[0];
    }
    if s != "" && One(p[0], s[0]) && InLanguage(s[1..], p[1..]) {
      assert s[..1] == [s[0]];
      FirstPiece(s, p, 1);
    }
  }

  /** A star takes nothing, or one character and starts over. */
  lemma StarStep(s: string, p: string)
    requires p != "" && p[0] == '*'
    ensures InLanguage(s, p) <==> InLanguage(s, p[1..]) || (s != "" && InLanguage(s[1..], p))
  {
    if InLanguage(s, p) {
      var n := CutFirst(s, p);
      if n == 0 {
        assert s[0..] == s;
      } else {
        assert s[n..] == s[1..][n - 1..];
        FirstPiece(s[1..], p, n - 1);
      }
    }
    if InLanguage(s, p[1..]) {
      assert s[0..] == s;
      FirstPiece(s, p, 0);
    }
    if s != "" && InLanguage(s[1..], p) {
      var n := CutFirst(s[1..], p);
      assert s[1..][n..] == s[n + 1..];
      FirstPiece(s, p, n + 1);
    }
  }

  /** Consecutive stars say no more than one. */
  lemma StarsCoalesce(s: string, p: string)
    requires |p| >= 2 && p[0] == p[1] == '*'
    ensures InLanguage(s, p) <==> InLanguage(s, p[1..])
    decreases |s|
  {
    StarStep(s, p);
    StarStep(s, p[1..]);
    if s != "" {
      StarsCoalesce(s[1..], p);
    }
  }

  lemma StarMatchesAll(s: string)
    ensures InLanguage(s, "*")
  {
    assert [s][1..] == [];
    assert Concat([s]) == s + Concat([]) == s;
    assert Piece('*', s);
    assert IsCutting(s, "*", [s]);
  }

  /** The matcher accepts exactly the language of the pattern, for every text and pattern. */
  method MatchVlogPattern(string0: string, vlogPattern: string) returns (matches: bool)
    ensures matches <==> InLanguage(string0, vlogPattern)
    decreases |vlogPattern|
  {
    var p, s := vlogPattern, string0;
    while p != "" && s != "" && p[0] != '*'
      invariant InLanguage(s, p) <==> InLanguage(string0, vlogPattern)
      invariant |p| <= |vlogPattern|
      decreases |p|
    {
      OneStep(s, p);
      match p[0] {
        case '/' | '\\' =>
          if s[0] != '/' && s[0] != '\\' { return false; }
        case '?' =>
        case _ =>
          if p[0] != s[0] { return false; }
      }
      p, s := p[1..], s[1..];
    }
    if p == "" {
      EmptyPattern(s);
      return s == "";
    }
    ghost var starred := p;
    while p != "" && p[0] == '*'
      invariant |p| <= |starred|
      invariant p == starred || (starred[0] == '*' && |p| < |starred|
                && (InLanguage(s, ['*'] + p) <==> InLanguage(s, starred)))
      decreases |p|
    {
      if p != starred {
        assert (['*'] + p)[1..] == p;
        StarsCoalesce(s, ['*'] + p);
      }
      assert p == ['*'] + p[1..];
      p := p[1..];
    }
    if p == "" {
      assert ['*'] + p == "*";
      StarMatchesAll(s);
      return true;
    }
    // A pattern that does not begin with a star needs at least one character.
    ghost var star := p != starred;
    while s != ""
      invariant |p| < |vlogPattern| || !star
      invariant star ==> (InLanguage(s, ['*'] + p) <==> InLanguage(string0, vlogPattern))
      invariant !star ==> s == "" && (InLanguage(s, p) <==> InLanguage(string0, vlogPattern))
      decreases |s|
    {
      var here := MatchVlogPattern(s, p);
      assert (['*'] + p)[1..] == p;
      StarStep(s, ['*'] + p);
      if here {
        return true;
      }
      s := s[1..];
    }
    OneStep(s, p);
    assert (['*'] + p)[1..] == p;
    StarStep(s, ['*'] + p);
    return false;
  }
}
