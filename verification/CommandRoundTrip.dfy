// Command lines as a user writes them, and what parsing makes of them.

module CommandRoundTrip {
  import opened CommandLines
  import opened Options
  import opened Strings
  import opened Text

  /** A switch with its dashes and maybe a value, or an argument. */
  datatype Given = Flag(dashes: string, name: string, value: Option<string>) | Plain(text: string)

  function ValueText(value: Option<string>): string {
    if value.Some? then "=" + value.value else ""
  }

  function Written(g: Given): string {
    match g
    case Flag(dashes, name, value) => dashes + name + ValueText(value)
    case Plain(text) => text
  }

  /** One or two dashes, a name that ends before the equals sign and does not add
      another dash, and not the terminator; or a text that begins without a dash. */
  ghost predicate WellFormed(g: Given) {
    && Bare(Written(g))
    && match g
       case Flag(dashes, name, value) =>
         && (dashes == "--" || (dashes == "-" && (name == "" || name[0] != '-')))
         && Free(name, {'='}) && Written(g) != "--"
       case Plain(text) => text == "" || text[0] != '-'
  }

  function ValueOf(value: Option<string>): string {
    if value.Some? then value.value else ""
  }

  /** A switch as it is kept: an empty value loses its equals sign. */
  function KeptText(g: Given): string
    requires g.Flag?
  {
    if ValueOf(g.value) == "" then g.dashes + g.name else Written(g)
  }

  function KeptTexts(givens: seq<Given>): seq<string> {
    if givens == [] then []
    else (if givens[0].Flag? then [KeptText(givens[0])] else []) + KeptTexts(givens[1..])
  }

  function PlainTexts(givens: seq<Given>): seq<string> {
    if givens == [] then []
    else (if givens[0].Plain? then [givens[0].text] else []) + PlainTexts(givens[1..])
  }

  /** The value of the last switch of this name, empty when it has none. */
  function LastGiven(givens: seq<Given>, name: string): Option<string> {
    if givens == [] then None
    else
      var last := givens[|givens| - 1];
      if last.Flag? && last.name == name then Some(ValueOf(last.value)) else LastGiven(givens[..|givens| - 1], name)
  }

  /** Every token, trimmed, is what was written, or after a terminator the rest. */
  ghost predicate Spells(tokens: seq<string>, givens: seq<Given>, terminated: bool, rest: seq<string>) {
    && (!terminated ==> rest == [])
    && |tokens| == |givens| + (if terminated then 1 + |rest| else 0)
    && (forall i :: 0 <= i < |givens| ==> WellFormed(givens[i]) && TrimWhitespace(tokens[i]) == Written(givens[i]))
    && (terminated ==> TrimWhitespace(tokens[|givens|]) == "--")
    && forall i :: 0 <= i < |rest| ==> TrimWhitespace(tokens[|givens| + 1 + i]) == rest[i]
  }

  /** What stands behind the switches: a terminator and the rest, if there is one. */
  function Tail(terminated: bool, rest: seq<string>): seq<string> {
    if terminated then ["--"] + rest else []
  }

  // ---- One token ----

  lemma DashesArePrefix(dashes: string, more: string, s: string)
    requires s == dashes + more && (dashes == "--" || (dashes == "-" && (more == "" || more[0] != '-')))
    ensures PrefixLength(s) == |dashes| && s[PrefixLength(s)..] == more
  {
    if dashes == "-" && more != "" {
      assert s[1] == more[0];
    }
  }

  lemma CutAtEquals(s: string, named: string, value: Option<string>)
    requires s == named + ValueText(value) && Free(named, {'='})
    ensures SwitchOf(s) == Switch(named, ValueOf(value))
  {
    var k := |named|;
    assert s[0..k] == named;
    FirstInSegment(s, 0, k, |s|, {'='}, named);
    assert s[..k] == named;
    if value.Some? {
      assert s[k + 1..] == value.value;
    }
  }

  /** The prefix of a written switch is its dashes. */
  lemma FlagIsSwitch(g: Given)
    requires WellFormed(g) && g.Flag?
    ensures IsSwitch(Written(g)) && SwitchOf(Written(g)) == Switch(g.dashes + g.name, ValueOf(g.value))
    ensures Key(SwitchOf(Written(g))) == g.name && Combined(SwitchOf(Written(g))) == KeptText(g)
  {
    hide PrefixLength, Bare, SwitchOf;
    var named := g.dashes + g.name;
    assert Free(named, {'='});
    CutAtEquals(Written(g), named, g.value);
    DashesArePrefix(g.dashes, g.name, named);
    assert Written(g) == g.dashes + (g.name + ValueText(g.value));
    DashesArePrefix(g.dashes, g.name + ValueText(g.value), Written(g));
    assert named + "" == named;
  }

  lemma PlainIsNoSwitch(g: Given)
    requires WellFormed(g) && g.Plain?
    ensures !IsSwitch(Written(g)) && Written(g) != TERMINATOR
  {
  }

  // ---- A whole line ----

  function FlagTexts(givens: seq<Given>): seq<string> {
    if givens == [] then []
    else (if givens[0].Flag? then [Written(givens[0])] else []) + FlagTexts(givens[1..])
  }

  lemma {:induction false} RestIsArguments(tokens: seq<string>, rest: seq<string>)
    requires |tokens| == |rest| && forall i :: 0 <= i < |rest| ==> TrimWhitespace(tokens[i]) == rest[i]
    ensures SwitchTokens(tokens, false) == [] && ArgTokens(tokens, false) == rest
    decreases tokens
  {
    if tokens != [] {
      RestIsArguments(tokens[1..], rest[1..]);
      assert rest == [rest[0]] + rest[1..];
    }
  }

  lemma SpellsLater(tokens: seq<string>, givens: seq<Given>, terminated: bool, rest: seq<string>)
    requires Spells(tokens, givens, terminated, rest) && givens != []
    ensures Spells(tokens[1..], givens[1..], terminated, rest)
  {
  }

  lemma TerminatedTokens(tokens: seq<string>, rest: seq<string>)
    requires Spells(tokens, [], true, rest)
    ensures SwitchTokens(tokens, true) == [] && ArgTokens(tokens, true) == ["--"] + rest
  {
    forall i | 0 <= i < |rest| ensures TrimWhitespace(tokens[1..][i]) == rest[i] {
      assert TrimWhitespace(tokens[0 + 1 + i]) == rest[i];
    }
    RestIsArguments(tokens[1..], rest);
  }

  lemma {:induction false} TokensAreGiven(tokens: seq<string>, givens: seq<Given>, terminated: bool, rest: seq<string>)
    requires Spells(tokens, givens, terminated, rest)
    ensures SwitchTokens(tokens, true) == FlagTexts(givens)
    ensures ArgTokens(tokens, true) == PlainTexts(givens) + Tail(terminated, rest)
    decreases givens
  {
    if givens == [] {
      if terminated {
        TerminatedTokens(tokens, rest);
      }
    } else {
      var g := givens[0];
      SpellsLater(tokens, givens, terminated, rest);
      TokensAreGiven(tokens[1..], givens[1..], terminated, rest);
      assert TrimWhitespace(tokens[0]) == Written(g);
      OneToken(tokens, g);
    }
  }

  lemma OneToken(tokens: seq<string>, g: Given)
    requires tokens != [] && WellFormed(g) && TrimWhitespace(tokens[0]) == Written(g)
    ensures SwitchTokens(tokens, true) == (if g.Flag? then [Written(g)] else []) + SwitchTokens(tokens[1..], true)
    ensures ArgTokens(tokens, true) == (if g.Plain? then [g.text] else []) + ArgTokens(tokens[1..], true)
  {
    if g.Flag? {
      FlagIsSwitch(g);
    } else {
      PlainIsNoSwitch(g);
    }
  }

  lemma {:induction false} KeptAsWritten(givens: seq<Given>)
    requires forall i :: 0 <= i < |givens| ==> WellFormed(givens[i])
    ensures Kept(FlagTexts(givens)) == KeptTexts(givens)
    decreases givens
  {
    if givens != [] {
      KeptAsWritten(givens[1..]);
      if givens[0].Flag? {
        FlagIsSwitch(givens[0]);
        KeptFirst(Written(givens[0]), FlagTexts(givens[1..]));
      } else {
        assert FlagTexts(givens) == FlagTexts(givens[1..]) && KeptTexts(givens) == KeptTexts(givens[1..]);
      }
    }
  }

  function Lookup(m: map<string, string>, name: string): Option<string> {
    if name in m then Some(m[name]) else None
  }

  lemma FlagTextsOfLast(givens: seq<Given>)
    requires givens != []
    ensures var n := |givens| - 1;
      FlagTexts(givens) == FlagTexts(givens[..n]) + if givens[n].Flag? then [Written(givens[n])] else []
    decreases givens
  {
    var n := |givens| - 1;
    if n > 0 {
      FlagTextsOfLast(givens[1..]);
      assert givens[1..][..n - 1] == givens[..n][1..];
    }
  }

  lemma {:induction false} LastGivenWins(givens: seq<Given>, name: string)
    requires forall i :: 0 <= i < |givens| ==> WellFormed(givens[i])
    ensures Lookup(Fold(map[], FlagTexts(givens)), name) == LastGiven(givens, name)
    decreases givens
  {
    if givens != [] {
      var n := |givens| - 1;
      LastGivenWins(givens[..n], name);
      FlagTextsOfLast(givens);
      if givens[n].Flag? {
        FlagIsSwitch(givens[n]);
        FoldJoins(map[], FlagTexts(givens[..n]), [Written(givens[n])]);
        FoldFirst(Fold(map[], FlagTexts(givens[..n])), Written(givens[n]), []);
      } else {
        assert FlagTexts(givens) == FlagTexts(givens[..n]);
      }
    }
  }

  /** A command line is read as it was written: the switches come first and keep their
      dashes, each name has its last value, and the arguments follow in order, with
      everything from a terminator on. */
  lemma CommandLineReadsBack(tokens: seq<string>, givens: seq<Given>, terminated: bool, rest: seq<string>)
    requires Spells(tokens, givens, terminated, rest)
    ensures var l := Parsed(tokens);
      && l.argv == [""] + KeptTexts(givens) + PlainTexts(givens) + Tail(terminated, rest)
      && l.beginArgs == 1 + |KeptTexts(givens)|
      && forall name :: Lookup(l.switches, name) == LastGiven(givens, name)
  {
    hide FlagTexts, KeptTexts, PlainTexts, LastGiven, SwitchTokens, ArgTokens, Fold, Extended, Kept;
    var flags, args := FlagTexts(givens), PlainTexts(givens) + Tail(terminated, rest);
    TokensAreGiven(tokens, givens, terminated, rest);
    KeptAsWritten(givens);
    ExtendedFromStart(flags, args);
    Regrouped([""], KeptTexts(givens), PlainTexts(givens), Tail(terminated, rest));
    forall name ensures Lookup(Fold(map[], flags), name) == LastGiven(givens, name) {
      LastGivenWins(givens, name);
    }
  }

  lemma Regrouped(a: seq<string>, b: seq<string>, c: seq<string>, d: seq<string>)
    ensures a + (b + (c + d)) == a + b + c + d
  {
  }

  /** A switch that is appended is kept with its dashes, or with two if it has none. */
  lemma AppendedAsWritten(l: Line, dashes: string, name: string, value: string)
    requires l.beginArgs <= |l.argv| && dashes in {"", "-", "--"}
    requires dashes != "--" ==> name == "" || name[0] != '-'
    ensures var t := AppendSwitch(l, Switch(dashes + name, value));
      && t.argv == l.argv[..l.beginArgs]
           + [(if dashes == "" then "--" else dashes) + name + if value == "" then "" else "=" + value]
           + l.argv[l.beginArgs..]
      && t.beginArgs == l.beginArgs + 1 && t.switches == l.switches[name := value]
  {
    if dashes == "" {
      assert dashes + name == name;
    } else {
      DashesArePrefix(dashes, name, dashes + name);
    }
  }
}
