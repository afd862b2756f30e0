// Parsing a command line into switches and arguments.

module CommandLines {
  import opened Strings
  import opened Text

  const TERMINATOR := "--"

  function PrefixLength(s: string): (n: nat)
    ensures n <= |s|
  {
    if "--" <= s then 2 else if "-" <= s then 1 else 0
  }

  /** A switch with its prefix and its value. */
  datatype Switch = Switch(name: string, value: string)

  function SwitchOf(s: string): Switch {
    var k := FirstIn(s, 0, |s|, {'='});
    Switch(s[..k], if k < |s| then s[k + 1..] else "")
  }

  /** The form in which a switch is kept: prefixed, and without an empty value. */
  function Combined(w: Switch): string {
    (if PrefixLength(w.name) == 0 then "--" + w.name else w.name) + if w.value == "" then "" else "=" + w.value
  }

  function Key(w: Switch): string {
    w.name[PrefixLength(w.name)..]
  }

  datatype Line = Line(argv: seq<string>, beginArgs: nat, switches: map<string, string>)

  function AppendSwitch(l: Line, w: Switch): Line
    requires l.beginArgs <= |l.argv|
  {
    Line(l.argv[..l.beginArgs] + [Combined(w)] + l.argv[l.beginArgs..], l.beginArgs + 1, l.switches[Key(w) := w.value])
  }

  function AppendArg(l: Line, value: string): Line {
    l.(argv := l.argv + [value])
  }

  // ---- Which tokens are switches ----

  predicate IsSwitch(s: string) { PrefixLength(s) != 0 }

  /** The trimmed tokens that are taken as switches, in order; none after a terminator. */
  function SwitchTokens(tokens: seq<string>, parsing: bool): seq<string>
    decreases tokens
  {
    if tokens == [] then []
    else
      var arg := TrimWhitespace(tokens[0]);
      var parse := parsing && arg != TERMINATOR;
      (if parse && IsSwitch(arg) then [arg] else []) + SwitchTokens(tokens[1..], parse)
  }

  /** The other trimmed tokens, in order. */
  function ArgTokens(tokens: seq<string>, parsing: bool): seq<string>
    decreases tokens
  {
    if tokens == [] then []
    else
      var arg := TrimWhitespace(tokens[0]);
      var parse := parsing && arg != TERMINATOR;
      (if parse && IsSwitch(arg) then [] else [arg]) + ArgTokens(tokens[1..], parse)
  }

  function Kept(switches: seq<string>): (r: seq<string>)
    ensures |r| == |switches| && forall i :: 0 <= i < |r| ==> r[i] == Combined(SwitchOf(switches[i]))
  {
    seq(|switches|, i requires 0 <= i < |switches| => Combined(SwitchOf(switches[i])))
  }

  /** The map after the switches, each overriding the earlier ones of its key. */
  function Fold(m: map<string, string>, switches: seq<string>): map<string, string>
    decreases switches
  {
    if switches == [] then m
    else
      var w := SwitchOf(switches[0]);
      Fold(m[Key(w) := w.value], switches[1..])
  }

  /** The line with these switches after its own, and these arguments at its end. */
  function Extended(l: Line, switches: seq<string>, args: seq<string>): Line
    requires l.beginArgs <= |l.argv|
  {
    Line(l.argv[..l.beginArgs] + Kept(switches) + l.argv[l.beginArgs..] + args,
         l.beginArgs + |switches|, Fold(l.switches, switches))
  }

  /** A stable partition: the switches go between the old switches and the old
      arguments, the other tokens to the end, both in their order. */
  function Partition(l: Line, tokens: seq<string>, parsing: bool): Line
    requires l.beginArgs <= |l.argv|
  {
    Extended(l, SwitchTokens(tokens, parsing), ArgTokens(tokens, parsing))
  }

  lemma PartitionNothing(l: Line, parsing: bool)
    requires l.beginArgs <= |l.argv|
    ensures Partition(l, [], parsing) == l
  {
  }

  lemma KeptFirst(s: string, rest: seq<string>)
    ensures Kept([s] + rest) == [Combined(SwitchOf(s))] + Kept(rest)
  {
  }

  lemma FoldFirst(m: map<string, string>, s: string, rest: seq<string>)
    ensures Fold(m, [s] + rest) == Fold(m[Key(SwitchOf(s)) := SwitchOf(s).value], rest)
  {
  }

  lemma ExtendedSwitch(l: Line, s: string, switches: seq<string>, args: seq<string>)
    requires l.beginArgs <= |l.argv|
    ensures Extended(l, [s] + switches, args) == Extended(AppendSwitch(l, SwitchOf(s)), switches, args)
  {
  }

  lemma ExtendedArg(l: Line, x: string, switches: seq<string>, args: seq<string>)
    requires l.beginArgs <= |l.argv|
    ensures Extended(l, switches, [x] + args) == Extended(AppendArg(l, x), switches, args)
  {
  }

  /** The first of the arguments is the program. */
  function AfterProgram(args: seq<string>): seq<string> {
    if args == [] then [] else args[1..]
  }

  // ---- The code ----

  class CommandLine {
    var argv: seq<string>
    var switches: map<string, string>
    var beginArgs: nat

    function Value(): Line
      reads this
    {
      Line(argv, beginArgs, switches)
    }

    /** The program's place comes first and the divider lies within the vector. */
    predicate Valid()
      reads this
    {
      1 <= beginArgs <= |argv|
    }

    constructor NoProgram()
      ensures Valid() && Value() == Line([""], 1, map[])
    {
      argv, beginArgs, switches := [""], 1, map[];
    }

    constructor (args: seq<string>)
      ensures Valid() && Value() == Partition(Line([""], 1, map[]), AfterProgram(args), true)
    {
      argv, beginArgs, switches := [""], 1, map[];
      new;
      InitFromArgv(args);
    }

    method AppendSwitchNative(switchString: string, value: string)
      requires Valid()
      modifies this
      ensures Valid() && Value() == AppendSwitch(old(Value()), Switch(switchString, value))
    {
      var combinedSwitchString := switchString;
      var prefixLength := PrefixLength(combinedSwitchString);
      switches := switches[switchString[prefixLength..] := value];
      if prefixLength == 0 {
        combinedSwitchString := "--" + combinedSwitchString;
      }
      if value != "" {
        combinedSwitchString := combinedSwitchString + ("=" + value);
      } else {
        assert combinedSwitchString + "" == combinedSwitchString;
      }
      argv := argv[..beginArgs] + [combinedSwitchString] + argv[beginArgs..];
      beginArgs := beginArgs + 1;
    }

    method AppendArgNative(value: string)
      requires Valid()
      modifies this`argv
      ensures Valid() && Value() == AppendArg(old(Value()), value)
    {
      argv := argv + [value];
    }

    /** Of the arguments, the first is the program and is passed over. */
    method AppendSwitchesAndArguments(args: seq<string>)
      requires Valid()
      modifies this
      ensures Valid() && Value() == Partition(old(Value()), AfterProgram(args), true)
    {
      hide Partition, SwitchOf, TrimWhitespace;
      var parseSwitches := true;
      var i := 1;
      ghost var tokens := AfterProgram(args);
      ghost var goal := Partition(Value(), tokens, true);
      while i < |args|
        invariant Valid() && 1 <= i <= |tokens| + 1
        invariant Partition(Value(), tokens[i - 1..], parseSwitches) == goal
        decreases |args| - i
      {
        assert tokens[i - 1..][1..] == tokens[i..];
        var arg := TrimWhitespace(args[i]);
        PartitionStep(Value(), tokens[i - 1..], parseSwitches);
        parseSwitches := parseSwitches && arg != TERMINATOR;
        if parseSwitches && IsSwitch(arg) {
          var w := SwitchOf(arg);
          AppendSwitchNative(w.name, w.value);
        } else {
          AppendArgNative(arg);
        }
        i := i + 1;
      }
      assert tokens[i - 1..] == [];
      PartitionNothing(Value(), parseSwitches);
    }

    /** Starts the vector afresh, but keeps whatever is in the map. */
    method InitFromArgv(args: seq<string>)
      modifies this
      ensures Valid()
      ensures Value() == Partition(Line([""], 1, old(switches)), AfterProgram(args), true)
    {
      argv := [""];
      beginArgs := 1;
      AppendSwitchesAndArguments(args);
    }

    /** Everything after the last switch, without the first terminator. */
    method GetArgs() returns (args: seq<string>)
      requires Valid()
      ensures TERMINATOR !in argv[beginArgs..] ==> args == argv[beginArgs..]
      ensures TERMINATOR in argv[beginArgs..] ==>
        exists k :: beginArgs <= k < |argv| && argv[k] == TERMINATOR && TERMINATOR !in argv[beginArgs..k]
                    && args == argv[beginArgs..k] + argv[k + 1..]
    {
      var all := argv[beginArgs..];
      var k := 0;
      while k < |all| && all[k] != TERMINATOR
        invariant 0 <= k <= |all| && TERMINATOR !in all[..k]
      {
        k := k + 1;
      }
      if k == |all| {
        assert all[..k] == all;
        return all;
      }
      assert argv[beginArgs + k] == TERMINATOR && argv[beginArgs..beginArgs + k] == all[..k];
      assert argv[beginArgs + k + 1..] == all[k + 1..];
      return all[..k] + all[k + 1..];
    }
  }

  /** One token, then the rest. */
  lemma PartitionStep(l: Line, tokens: seq<string>, parsing: bool)
    requires l.beginArgs <= |l.argv| && tokens != []
    ensures var arg := TrimWhitespace(tokens[0]);
      var parse := parsing && arg != TERMINATOR;
      Partition(l, tokens, parsing)
        == Partition(if parse && IsSwitch(arg) then AppendSwitch(l, SwitchOf(arg)) else AppendArg(l, arg),
            tokens[1..], parse)
  {
    var arg := TrimWhitespace(tokens[0]);
    var parse := parsing && arg != TERMINATOR;
    var switches, args := SwitchTokens(tokens[1..], parse), ArgTokens(tokens[1..], parse);
    if parse && IsSwitch(arg) {
      assert SwitchTokens(tokens, parsing) == [arg] + switches && ArgTokens(tokens, parsing) == [] + args == args;
      ExtendedSwitch(l, arg, switches, args);
    } else {
      assert SwitchTokens(tokens, parsing) == [] + switches == switches && ArgTokens(tokens, parsing) == [arg] + args;
      ExtendedArg(l, arg, switches, args);
    }
  }

  // ---- The map is the fold of the switches in the vector ----

  lemma NameKeepsPrefix(s: string)
    requires IsSwitch(s)
    ensures IsSwitch(SwitchOf(s).name) && '=' !in SwitchOf(s).name
  {
  }

  lemma PlainNameReadsBack(w: Switch, prefixed: string)
    requires '=' !in w.name && prefixed == if PrefixLength(w.name) == 0 then "--" + w.name else w.name
    ensures SwitchOf(Combined(w)) == Switch(prefixed, w.value)
  {
    var line := Combined(w);
    assert Free(prefixed, {'='});
    assert line[0..|prefixed|] == prefixed;
    FirstInSegment(line, 0, |prefixed|, |line|, {'='}, prefixed);
    assert line[..|prefixed|] == prefixed;
  }

  /** A kept switch is read back as itself exactly when its name has no equals sign. */
  lemma CombinedReadsBack(w: Switch)
    ensures '=' !in w.name <==> Key(SwitchOf(Combined(w))) == Key(w) && SwitchOf(Combined(w)).value == w.value
  {
    var prefixed := if PrefixLength(w.name) == 0 then "--" + w.name else w.name;
    if '=' in w.name {
      assert '=' in prefixed;
      EqualsInside(prefixed, Combined(w), w);
    } else {
      PrefixedKey(w.name, prefixed);
      PlainNameReadsBack(w, prefixed);
    }
  }

  lemma PrefixedKey(name: string, prefixed: string)
    requires prefixed == if PrefixLength(name) == 0 then "--" + name else name
    ensures prefixed[PrefixLength(prefixed)..] == name[PrefixLength(name)..]
  {
  }

  lemma EqualsInside(prefixed: string, line: string, w: Switch)
    requires prefixed == (if PrefixLength(w.name) == 0 then "--" + w.name else w.name) && '=' in prefixed
    requires line == Combined(w)
    ensures Key(SwitchOf(line)) != Key(w)
  {
  }

  lemma {:induction false} FoldJoins(m: map<string, string>, a: seq<string>, b: seq<string>)
    ensures Fold(m, a + b) == Fold(Fold(m, a), b)
    decreases a
  {
    if a == [] {
      assert a + b == b;
    } else {
      var w := SwitchOf(a[0]);
      assert (a + b)[0] == a[0] && (a + b)[1..] == a[1..] + b;
      FoldJoins(m[Key(w) := w.value], a[1..], b);
    }
  }

  lemma {:induction false} FoldOfKept(m: map<string, string>, switches: seq<string>)
    requires forall i :: 0 <= i < |switches| ==> IsSwitch(switches[i])
    ensures Fold(m, Kept(switches)) == Fold(m, switches)
    decreases switches
  {
    if switches != [] {
      var s, rest := switches[0], switches[1..];
      var w := SwitchOf(s);
      NameKeepsPrefix(s);
      CombinedReadsBack(w);
      assert Kept(switches)[0] == Combined(w) && Kept(switches)[1..] == Kept(rest);
      FoldOfKept(m[Key(w) := w.value], rest);
    }
  }

  lemma {:induction false} SwitchTokensAreSwitches(tokens: seq<string>, parsing: bool)
    ensures forall i :: 0 <= i < |SwitchTokens(tokens, parsing)| ==>
      var s := SwitchTokens(tokens, parsing)[i];
      IsSwitch(s) && s != TERMINATOR && TrimWhitespace(s) == s
    decreases tokens
  {
    if tokens != [] {
      var arg := TrimWhitespace(tokens[0]);
      TrimKeepsBare(tokens[0]);
      TrimKeepsBare(arg);
      SwitchTokensAreSwitches(tokens[1..], parsing && arg != TERMINATOR);
    }
  }

  /** The map is what the switches in the vector make of the map m. */
  predicate Folded(l: Line, m: map<string, string>) {
    1 <= l.beginArgs <= |l.argv| && l.switches == Fold(m, l.argv[1..l.beginArgs])
  }

  lemma FrontOf(front: seq<string>, kept: seq<string>, back: seq<string>, args: seq<string>, n: nat)
    requires 1 <= |front| && n == |front| + |kept|
    ensures (front + kept + back + args)[1..n] == front[1..] + kept
  {
  }

  lemma ExtendedStaysFolded(l: Line, m: map<string, string>, switches: seq<string>, args: seq<string>)
    requires Folded(l, m) && forall i :: 0 <= i < |switches| ==> IsSwitch(switches[i])
    ensures Folded(Extended(l, switches, args), m)
  {
    FrontOf(l.argv[..l.beginArgs], Kept(switches), l.argv[l.beginArgs..], args, l.beginArgs + |switches|);
    assert l.argv[..l.beginArgs][1..] == l.argv[1..l.beginArgs];
    FoldJoins(m, l.argv[1..l.beginArgs], Kept(switches));
    FoldOfKept(l.switches, switches);
  }

  /** Parsing more arguments keeps the map the last-wins fold of the switch tokens
      between the program and the divider. */
  lemma PartitionStaysFolded(l: Line, m: map<string, string>, tokens: seq<string>, parsing: bool)
    requires Folded(l, m)
    ensures Folded(Partition(l, tokens, parsing), m)
  {
    SwitchTokensAreSwitches(tokens, parsing);
    ExtendedStaysFolded(l, m, SwitchTokens(tokens, parsing), ArgTokens(tokens, parsing));
  }

  /** Setting two entries leaves one map exactly when they are one entry, or when
      the map holds both already. */
  lemma SameUpdate(m: map<string, string>, a: string, x: string, b: string, y: string)
    ensures m[a := x] == m[b := y]
       <==> (a == b && x == y) || (a in m && m[a] == x && b in m && m[b] == y)
  {
    var p, q := m[a := x], m[b := y];
    if p == q && a != b {
      assert a in q && q[a] == x && b in p && p[b] == y;
    }
    if a in m && m[a] == x && b in m && m[b] == y {
      assert p == m && q == m;
    }
  }

  lemma FoldAfterAppend(l: Line, m: map<string, string>, w: Switch)
    requires Folded(l, m)
    ensures var r, t := SwitchOf(Combined(w)), AppendSwitch(l, w);
      1 <= t.beginArgs <= |t.argv| && Fold(m, t.argv[1..t.beginArgs]) == l.switches[Key(r) := r.value]
  {
    var t := AppendSwitch(l, w);
    assert t.argv[1..t.beginArgs] == l.argv[1..l.beginArgs] + [Combined(w)];
    FoldJoins(m, l.argv[1..l.beginArgs], [Combined(w)]);
    FoldFirst(l.switches, Combined(w), []);
  }

  predicate Holds(m: map<string, string>, w: Switch) {
    Key(w) in m && m[Key(w)] == w.value
  }

  /** Appending a switch, whatever its name, keeps the map the fold exactly when the
      name has no equals sign, or the map already holds the switch both as it was
      given and as it is read back. */
  lemma AppendStaysFolded(l: Line, m: map<string, string>, w: Switch)
    requires Folded(l, m)
    ensures Folded(AppendSwitch(l, w), m)
       <==> '=' !in w.name || (Holds(l.switches, w) && Holds(l.switches, SwitchOf(Combined(w))))
  {
    var r := SwitchOf(Combined(w));
    FoldAfterAppend(l, m, w);
    CombinedReadsBack(w);
    SameUpdate(l.switches, Key(w), w.value, Key(r), r.value);
  }

  /** AppendSwitch("a=b") on a new command line: the map has the key "a=b", its
      vector the switch a with the value b. */
  lemma EqualsInNameIsMisread()
    ensures var l := AppendSwitch(START, Switch("a=b", ""));
      l.switches == map["a=b" := ""] && Fold(map[], l.argv[1..l.beginArgs]) == map["a" := "b"]
  {
    var w, line := Switch("a=b", ""), "--a=b";
    var l := AppendSwitch(START, w);
    assert w.name[0] == 'a' && PrefixLength(w.name) == 0;
    assert Combined(w) == ("--" + "a=b") + "" == line;
    assert line[0..3] == "--a";
    FirstInSegment(line, 0, 3, 5, {'='}, "--a");
    assert SwitchOf(line) == Switch("--a", "b");
    assert l.argv[1..l.beginArgs] == [line] && [line][1..] == [];
    assert Fold(map[], [line]) == Fold(map["a" := "b"], []);
  }

  // ---- A command line that is read into twice ----

  function Keys(switches: seq<string>): set<string> {
    set s | s in switches :: Key(SwitchOf(s))
  }

  /** The keys of the switches take values that do not depend on the map before. */
  lemma {:induction false} FoldOverrides(m: map<string, string>, n: map<string, string>, switches: seq<string>)
    ensures Fold(m, switches).Keys == m.Keys + Keys(switches)
    ensures forall k :: k in Keys(switches) ==> k in Fold(n, switches) && Fold(m, switches)[k] == Fold(n, switches)[k]
    ensures forall k :: k in m && k !in Keys(switches) ==> Fold(m, switches)[k] == m[k]
    decreases switches
  {
    if switches != [] {
      var w, rest := SwitchOf(switches[0]), switches[1..];
      var m', n' := m[Key(w) := w.value], n[Key(w) := w.value];
      FoldOverrides(m', n', rest);
      FoldOverrides(n', m', rest);
      assert switches == [switches[0]] + rest;
      assert Keys(switches) == {Key(w)} + Keys(rest);
    }
  }

  lemma FoldForgets(m: map<string, string>, switches: seq<string>)
    ensures Fold(m, switches) == Fold(map[], switches) <==> m.Keys <= Keys(switches)
  {
    FoldOverrides(m, map[], switches);
    FoldOverrides(map[], m, switches);
  }

  lemma FoldedAfresh(before: map<string, string>, switches: seq<string>, args: seq<string>)
    requires forall i :: 0 <= i < |switches| ==> IsSwitch(switches[i])
    ensures Folded(Extended(Line([""], 1, before), switches, args), map[]) <==> before.Keys <= Keys(switches)
  {
    var t := Extended(Line([""], 1, before), switches, args);
    FrontOf([""], Kept(switches), [], args, 1 + |switches|);
    assert t.argv[1..t.beginArgs] == Kept(switches);
    FoldOfKept(map[], switches);
    FoldForgets(before, switches);
  }

  /** InitFromArgv on a used object: the map is the fold of the switches now in the
      vector exactly when each key that was there before is given again. */
  lemma InitStaysFolded(before: map<string, string>, tokens: seq<string>)
    ensures Folded(Partition(Line([""], 1, before), tokens, true), map[])
       <==> forall k :: k in before ==> exists s :: s in SwitchTokens(tokens, true) && Key(SwitchOf(s)) == k
  {
    var switches := SwitchTokens(tokens, true);
    SwitchTokensAreSwitches(tokens, true);
    FoldedAfresh(before, switches, ArgTokens(tokens, true));
    KeysAre(before, switches);
  }

  lemma KeysAre(before: map<string, string>, switches: seq<string>)
    ensures before.Keys <= Keys(switches)
       <==> forall k :: k in before ==> exists s :: s in switches && Key(SwitchOf(s)) == k
  {
  }

  /** Read --v=1, then read an empty command line: the switch is still in the map. */
  lemma StaleSwitchRemains()
    ensures !Folded(Partition(Line([""], 1, map["v" := "1"]), [], true), map[])
  {
    InitStaysFolded(map["v" := "1"], []);
    assert "v" in map["v" := "1"];
  }

  // ---- Parsing the result again ----

  const START: Line := Line([""], 1, map[])

  lemma FromNothing(kept: seq<string>, args: seq<string>)
    ensures [""][..1] + kept + [""][1..] + args == [""] + (kept + args)
  {
  }

  lemma ExtendedFromStart(switches: seq<string>, args: seq<string>)
    ensures Extended(START, switches, args)
         == Line([""] + (Kept(switches) + args), 1 + |switches|, Fold(map[], switches))
  {
    FromNothing(Kept(switches), args);
  }

  /** A kept switch that the parser would take as it is. */
  predicate Survives(s: string) {
    TrimWhitespace(s) == s && s != TERMINATOR
  }

  /** A switch with an equals sign and nothing after it, whose name is the bare
      terminator or ends blank. */
  predicate Fragile(s: string) {
    FirstIn(s, 0, |s|, {'='}) + 1 == |s| && (s == "--=" || (|s| >= 2 && s[|s| - 2] in WHITESPACE))
  }

  lemma SurvivesUnlessFragile(s: string)
    requires IsSwitch(s) && s != TERMINATOR && TrimWhitespace(s) == s
    ensures Survives(Combined(SwitchOf(s))) <==> !Fragile(s)
  {
    var k := FirstIn(s, 0, |s|, {'='});
    var w := SwitchOf(s);
    NameKeepsPrefix(s);
    TrimKeepsBare(s);
    TrimKeepsBare(w.name);
    if k + 1 == |s| {
      assert Combined(w) == w.name + "" == s[..k];
      assert s == s[..k] + "=";
    } else if k < |s| {
      assert Combined(w) == w.name + ("=" + w.value) == s;
    } else {
      assert Combined(w) == w.name + "" == s;
    }
  }

  lemma ArgsAgainStep(arg: string, rest: seq<string>, parsing: bool, parse: bool)
    requires TrimWhitespace(arg) == arg && parse == (parsing && arg != TERMINATOR) && !(parse && IsSwitch(arg))
    requires SwitchTokens(rest, parse) == [] && ArgTokens(rest, parse) == rest
    ensures SwitchTokens([arg] + rest, parsing) == [] && ArgTokens([arg] + rest, parsing) == [arg] + rest
  {
  }

  lemma {:induction false} ArgsAgain(tokens: seq<string>, parsing: bool)
    ensures SwitchTokens(ArgTokens(tokens, parsing), parsing) == []
    ensures ArgTokens(ArgTokens(tokens, parsing), parsing) == ArgTokens(tokens, parsing)
    decreases tokens
  {
    if tokens != [] {
      var arg := TrimWhitespace(tokens[0]);
      var parse := parsing && arg != TERMINATOR;
      TrimKeepsBare(tokens[0]);
      TrimKeepsBare(arg);
      ArgsAgain(tokens[1..], parse);
      if parse && IsSwitch(arg) {
        assert ArgTokens(tokens, parsing) == [] + ArgTokens(tokens[1..], parse) == ArgTokens(tokens[1..], parse);
      } else {
        ArgsAgainStep(arg, ArgTokens(tokens[1..], parse), parsing, parse);
        assert ArgTokens(tokens, parsing) == [arg] + ArgTokens(tokens[1..], parse);
      }
    }
  }

  lemma {:induction false} KeptAgain(kept: seq<string>, args: seq<string>)
    requires forall i :: 0 <= i < |kept| ==> IsSwitch(kept[i]) && Survives(kept[i])
    ensures SwitchTokens(kept + args, true) == kept + SwitchTokens(args, true)
    ensures ArgTokens(kept + args, true) == ArgTokens(args, true)
    decreases kept
  {
    if kept == [] {
      assert kept + args == args;
    } else {
      assert (kept + args)[0] == kept[0] && (kept + args)[1..] == kept[1..] + args;
      KeptAgain(kept[1..], args);
    }
  }

  lemma TrimmedSwitch(s: string)
    requires IsSwitch(s)
    ensures IsSwitch(TrimWhitespace(s)) && |TrimWhitespace(s)| <= |s|
    ensures |TrimWhitespace(s)| == |s| ==> TrimWhitespace(s) == s
  {
  }

  lemma CombinedIsNoLonger(s: string)
    requires IsSwitch(s)
    ensures |Combined(SwitchOf(s))| <= |s|
  {
  }

  lemma SurvivedHead(kept: seq<string>, s: string, head: string, tail: seq<string>)
    requires kept != [] && kept[0] == s && kept == [head] + tail
    ensures s == head && kept[1..] == tail
  {
  }

  /** If parsing again keeps all the switches, each of them survived. */
  lemma {:induction false} AllSurvived(kept: seq<string>, args: seq<string>)
    requires forall i :: 0 <= i < |kept| ==> IsSwitch(kept[i])
    requires Kept(SwitchTokens(kept + args, true)) == kept
    ensures forall i :: 0 <= i < |kept| ==> Survives(kept[i])
    decreases kept
  {
    hide TrimWhitespace, SwitchOf, Combined, IsSwitch, Kept;
    if kept != [] {
      var s, rest := kept[0], kept[1..];
      var t := TrimWhitespace(s);
      assert (kept + args)[0] == s && (kept + args)[1..] == rest + args;
      TrimmedSwitch(s);
      if t == TERMINATOR {
        NoneAfterTerminator(rest + args);
      } else {
        assert SwitchTokens(kept + args, true) == [t] + SwitchTokens(rest + args, true);
        KeptFirst(t, SwitchTokens(rest + args, true));
        SurvivedHead(kept, s, Combined(SwitchOf(t)), Kept(SwitchTokens(rest + args, true)));
        CombinedIsNoLonger(t);
        AllSurvived(rest, args);
      }
    }
  }

  lemma {:induction false} NoneAfterTerminator(tokens: seq<string>)
    ensures SwitchTokens(tokens, false) == []
    decreases tokens
  {
    if tokens != [] {
      NoneAfterTerminator(tokens[1..]);
    }
  }

  /** The result of parsing once, and of parsing its vector again. */
  function Parsed(tokens: seq<string>): Line {
    Partition(START, tokens, true)
  }

  lemma SameWhenSurviving(switches: seq<string>, args: seq<string>)
    requires forall i :: 0 <= i < |switches| ==> IsSwitch(switches[i]) && Survives(Kept(switches)[i])
    requires SwitchTokens(args, true) == [] && ArgTokens(args, true) == args
    ensures Parsed(Kept(switches) + args) == Extended(START, switches, args)
  {
    forall i | 0 <= i < |switches| ensures IsSwitch(Kept(switches)[i]) {
      KeptIsSwitch(switches[i]);
    }
    KeptAgain(Kept(switches), args);
    assert Kept(switches) + [] == Kept(switches);
    FoldOfKept(map[], switches);
    KeptTwice(switches);
    ExtendedFromStart(switches, args);
    ExtendedFromStart(Kept(switches), args);
  }

  lemma KeptIsSwitch(s: string)
    requires IsSwitch(s)
    ensures IsSwitch(Combined(SwitchOf(s)))
    ensures Combined(SwitchOf(Combined(SwitchOf(s)))) == Combined(SwitchOf(s))
  {
    NameKeepsPrefix(s);
    var w := SwitchOf(s);
    var t := Combined(w);
    assert t[0] == w.name[0] == '-';
    assert t[0..|w.name|] == w.name && Free(w.name, {'='});
    FirstInSegment(t, 0, |w.name|, |t|, {'='}, w.name);
    assert t[..|w.name|] == w.name;
  }

  lemma KeptTwice(switches: seq<string>)
    requires forall i :: 0 <= i < |switches| ==> IsSwitch(switches[i])
    ensures Kept(Kept(switches)) == Kept(switches)
  {
    forall i | 0 <= i < |switches| ensures Kept(Kept(switches))[i] == Kept(switches)[i] {
      KeptIsSwitch(switches[i]);
    }
  }

  lemma SurvivingWhenSame(switches: seq<string>, args: seq<string>)
    requires forall i :: 0 <= i < |switches| ==> IsSwitch(switches[i])
    requires Parsed(Kept(switches) + args) == Extended(START, switches, args)
    ensures forall i :: 0 <= i < |switches| ==> Survives(Kept(switches)[i])
  {
    var again, rest := SwitchTokens(Kept(switches) + args, true), ArgTokens(Kept(switches) + args, true);
    ExtendedFromStart(switches, args);
    ExtendedFromStart(again, rest);
    assert (([""] + (Kept(again) + rest))[1..])[..|switches|] == Kept(again);
    assert (([""] + (Kept(switches) + args))[1..])[..|switches|] == Kept(switches);
    forall i | 0 <= i < |switches| ensures IsSwitch(Kept(switches)[i]) {
      KeptIsSwitch(switches[i]);
    }
    AllSurvived(Kept(switches), args);
  }

  /** Parsing the resulting vector again gives the same vector, divider and map
      exactly when none of the switches is fragile. */
  lemma ParsingAgain(tokens: seq<string>)
    ensures Parsed(AfterProgram(Parsed(tokens).argv)) == Parsed(tokens)
       <==> forall s :: s in SwitchTokens(tokens, true) ==> !Fragile(s)
  {
    var switches, args := SwitchTokens(tokens, true), ArgTokens(tokens, true);
    SwitchTokensAreSwitches(tokens, true);
    ArgsAgain(tokens, true);
    ExtendedFromStart(switches, args);
    assert AfterProgram(Parsed(tokens).argv) == Kept(switches) + args;
    forall i | 0 <= i < |switches| ensures Survives(Kept(switches)[i]) <==> !Fragile(switches[i]) {
      SurvivesUnlessFragile(switches[i]);
    }
    if forall s :: s in switches ==> !Fragile(s) {
      SameWhenSurviving(switches, args);
    }
    if Parsed(Kept(switches) + args) == Parsed(tokens) {
      SurvivingWhenSame(switches, args);
    }
  }

  /** A command line of the one token "--=" is kept as "--", which ends the switches
      when it is parsed again. */
  lemma BareValueIsFragile()
    ensures Parsed(AfterProgram(Parsed(["--="]).argv)) != Parsed(["--="])
  {
    var s := "--=";
    TrimKeepsBare(s);
    FirstInSegment(s, 0, 2, 3, {'='}, "--");
    assert SwitchTokens([s], true) == [s] + SwitchTokens([s][1..], true);
    assert s in SwitchTokens([s], true) && Fragile(s);
    ParsingAgain([s]);
  }

  lemma {:induction false} SwitchTokensComeFrom(tokens: seq<string>, parsing: bool, s: string)
    requires s in SwitchTokens(tokens, parsing)
    ensures exists i :: 0 <= i < |tokens| && s == TrimWhitespace(tokens[i])
    decreases tokens
  {
    var arg := TrimWhitespace(tokens[0]);
    if s != arg {
      SwitchTokensComeFrom(tokens[1..], parsing && arg != TERMINATOR, s);
      var i :| 0 <= i < |tokens[1..]| && s == TrimWhitespace(tokens[1..][i]);
      assert tokens[1..][i] == tokens[i + 1];
    }
  }

  lemma PlainIsNotFragile(s: string)
    requires Free(s, WHITESPACE) && s != "--="
    ensures !Fragile(s)
  {
    assert |s| >= 2 ==> s[|s| - 2] in s;
  }

  lemma PlainIsTrimmed(s: string)
    requires Free(s, WHITESPACE)
    ensures TrimWhitespace(s) == s
  {
    assert s != "" ==> s[0] in s && s[|s| - 1] in s;
    TrimKeepsBare(s);
  }

  lemma PlainTokensAreNotFragile(tokens: seq<string>, s: string)
    requires forall i :: 0 <= i < |tokens| ==> Free(tokens[i], WHITESPACE) && tokens[i] != "--="
    requires s in SwitchTokens(tokens, true)
    ensures !Fragile(s)
  {
    SwitchTokensComeFrom(tokens, true, s);
    var i :| 0 <= i < |tokens| && s == TrimWhitespace(tokens[i]);
    PlainIsTrimmed(tokens[i]);
    PlainIsNotFragile(s);
  }

  /** In particular for tokens without blanks, none of them literally "--=". */
  lemma PlainTokensParseAgain(tokens: seq<string>)
    requires forall i :: 0 <= i < |tokens| ==> Free(tokens[i], WHITESPACE) && tokens[i] != "--="
    ensures Parsed(AfterProgram(Parsed(tokens).argv)) == Parsed(tokens)
  {
    forall s | s in SwitchTokens(tokens, true) ensures !Fragile(s) {
      PlainTokensAreNotFragile(tokens, s);
    }
    ParsingAgain(tokens);
  }
}
