// Expansion of $n placeholders.

module Placeholders {
  import opened Numbers
  import opened Strings
  import opened Text

  // size_t and uintptr_t
  const WORD: nat := 0x1_0000_0000_0000_0000

  datatype Token = Literal(c: char) | Placeholder(parameter: nat)

  /** The number, less one, in a machine word. No digits at all, or zero, wrap around. */
  function Parameter(digits: string): nat
    requires AllDigits(digits)
  {
    (Decimal(digits) + WORD - 1) % WORD
  }

  function Literals(s: string): (r: seq<Token>)
    ensures |r| == |s| && forall i :: 0 <= i < |r| ==> r[i] == Literal(s[i])
  {
    seq(|s|, i requires 0 <= i < |s| => Literal(s[i]))
  }

  /** What the format means from index i on: a run of dollars stands for one fewer,
      a single dollar for a placeholder with the digits that follow, and a dollar at
      the very end for nothing. */
  function Tokens(f: string, i: nat): seq<Token>
    requires i <= |f|
    decreases |f| - i
  {
    if i == |f| then []
    else if f[i] != '$' then [Literal(f[i])] + Tokens(f, i + 1)
    else if i + 1 == |f| then []
    else if f[i + 1] == '$' then
      var k := FirstNotOf(f, i + 1, {'$'});
      Literals(f[i + 1..k]) + Tokens(f, k)
    else
      var k := DigitsEnd(f, i + 1);
      [Placeholder(Parameter(f[i + 1..k]))] + Tokens(f, k)
  }

  function TextOf(t: Token, subst: seq<string>): string {
    match t
    case Literal(c) => [c]
    case Placeholder(p) => if p < |subst| then subst[p] else ""
  }

  function Render(tokens: seq<Token>, subst: seq<string>): string
    decreases tokens
  {
    if tokens == [] then ""
    else Render(tokens[..|tokens| - 1], subst) + TextOf(tokens[|tokens| - 1], subst)
  }

  lemma RenderOne(tokens: seq<Token>, t: Token, subst: seq<string>)
    ensures Render(tokens + [t], subst) == Render(tokens, subst) + TextOf(t, subst)
  {
  }

  lemma {:induction false} RenderLiterals(tokens: seq<Token>, s: string, subst: seq<string>)
    ensures Render(tokens + Literals(s), subst) == Render(tokens, subst) + s
    decreases s
  {
    if s == "" {
      assert tokens + Literals(s) == tokens;
    } else {
      var init, c := s[..|s| - 1], s[|s| - 1];
      assert tokens + Literals(s) == (tokens + Literals(init)) + [Literal(c)];
      RenderLiterals(tokens, init, subst);
      RenderOne(tokens + Literals(init), Literal(c), subst);
      assert Render(tokens, subst) + s == (Render(tokens, subst) + init) + [c];
    }
  }

  // ---- Offsets ----

  datatype ReplacementOffset = ReplacementOffset(parameter: nat, offset: nat)

  /** Where each placeholder's text begins, in the order of the format. */
  function Places(tokens: seq<Token>, subst: seq<string>): seq<ReplacementOffset>
    decreases tokens
  {
    if tokens == [] then []
    else
      var n := |tokens| - 1;
      Places(tokens[..n], subst)
      + if tokens[n].Placeholder? then [ReplacementOffset(tokens[n].parameter, |Render(tokens[..n], subst)|)] else []
  }

  lemma PlacesOne(tokens: seq<Token>, t: Token, subst: seq<string>)
    ensures Places(tokens + [t], subst) == Places(tokens, subst)
      + if t.Placeholder? then [ReplacementOffset(t.parameter, |Render(tokens, subst)|)] else []
  {
  }

  lemma {:induction false} PlacesLiterals(tokens: seq<Token>, s: string, subst: seq<string>)
    ensures Places(tokens + Literals(s), subst) == Places(tokens, subst)
    decreases s
  {
    if s == "" {
      assert tokens + Literals(s) == tokens;
    } else {
      var init, c := s[..|s| - 1], s[|s| - 1];
      assert tokens + Literals(s) == (tokens + Literals(init)) + [Literal(c)];
      PlacesLiterals(tokens, init, subst);
      PlacesOne(tokens + Literals(init), Literal(c), subst);
    }
  }

  /** std::lower_bound with CompareParameter, on an ordered vector. */
  function LowerBound(r: seq<ReplacementOffset>, parameter: nat): (i: nat)
    ensures i <= |r|
    ensures forall j :: 0 <= j < i ==> r[j].parameter < parameter
    ensures i < |r| ==> r[i].parameter >= parameter
  {
    if r == [] || r[0].parameter >= parameter then 0 else LowerBound(r[1..], parameter) + 1
  }

  function Insert(r: seq<ReplacementOffset>, x: ReplacementOffset): seq<ReplacementOffset> {
    var i := LowerBound(r, x.parameter);
    r[..i] + [x] + r[i..]
  }

  function Sorted(places: seq<ReplacementOffset>): seq<ReplacementOffset>
    decreases places
  {
    if places == [] then [] else Insert(Sorted(places[..|places| - 1]), places[|places| - 1])
  }

  function OffsetsOf(r: seq<ReplacementOffset>): (offsets: seq<nat>)
    ensures |offsets| == |r| && forall i :: 0 <= i < |r| ==> offsets[i] == r[i].offset
  {
    seq(|r|, i requires 0 <= i < |r| => r[i].offset)
  }

  // ---- The code ----

  lemma WordStep(index: nat, a: nat, d: nat)
    requires index == a % WORD
    ensures (index * 10 % WORD + d) % WORD == (a * 10 + d) % WORD
  {
  }

  lemma WordMinusOne(a: nat)
    ensures (a % WORD + WORD - 1) % WORD == (a + WORD - 1) % WORD
  {
  }

  /** The loop over a run of dollars. */
  method CopyDollars(f: string, start: nat, before: string) returns (formatted: string, i: nat)
    requires start <= |f|
    ensures i == FirstNotOf(f, start, {'$'}) && formatted == before + f[start..i]
  {
    formatted, i := before, start;
    while i != |f| && f[i] == '$'
      invariant start <= i <= |f| && formatted == before + f[start..i]
      invariant FirstNotOf(f, i, {'$'}) == FirstNotOf(f, start, {'$'})
      decreases |f| - i
    {
      assert before + f[start..i + 1] == (before + f[start..i]) + [f[i]];
      formatted := formatted + "$";
      i := i + 1;
    }
  }

  /** The loop over the digits, in machine arithmetic. */
  method ReadIndex(f: string, start: nat) returns (index: nat, i: nat)
    requires start <= |f|
    ensures i == DigitsEnd(f, start) && index == Parameter(f[start..i])
  {
    index, i := 0, start;
    while i != |f| && '0' <= f[i] && f[i] <= '9'
      invariant start <= i <= |f| && AllDigits(f[start..i]) && index == Decimal(f[start..i]) % WORD
      invariant DigitsEnd(f, i) == DigitsEnd(f, start)
      decreases |f| - i
    {
      NextDigit(f, start, i);
      WordStep(index, Decimal(f[start..i]), (f[i] - '0') as nat);
      index := (index * 10 % WORD + (f[i] - '0') as nat) % WORD;
      i := i + 1;
    }
    WordMinusOne(Decimal(f[start..i]));
    index := (index + WORD - 1) % WORD;
  }

  method AppendSubstitution(before: string, subst: seq<string>, index: nat) returns (formatted: string)
    ensures formatted == before + TextOf(Placeholder(index), subst)
  {
    formatted := before;
    if index < |subst| {
      formatted := formatted + subst[index];
    } else {
      assert before + "" == before;
    }
  }

  lemma Regroup(done: seq<Token>, x: seq<Token>, rest: seq<Token>)
    ensures done + (x + rest) == (done + x) + rest
  {
  }

  /** The loop's state: the tokens done so far, their text, and their offsets. */
  ghost predicate Progress(f: string, subst: seq<string>, i: nat, done: seq<Token>, formatted: string,
      r: seq<ReplacementOffset>)
    requires i <= |f|
  {
    done + Tokens(f, i) == Tokens(f, 0) && formatted == Render(done, subst) && r == Sorted(Places(done, subst))
  }

  lemma AfterLiterals(f: string, subst: seq<string>, i: nat, k: nat, done: seq<Token>, formatted: string,
                      r: seq<ReplacementOffset>, text: string)
    requires i <= |f| && k <= |f| && Progress(f, subst, i, done, formatted, r)
    requires Tokens(f, i) == Literals(text) + Tokens(f, k)
    ensures Progress(f, subst, k, done + Literals(text), formatted + text, r)
  {
    Regroup(done, Literals(text), Tokens(f, k));
    RenderLiterals(done, text, subst);
    PlacesLiterals(done, text, subst);
  }

  lemma AfterRun(f: string, subst: seq<string>, i: nat, k: nat, done: seq<Token>, formatted: string,
      r: seq<ReplacementOffset>)
    requires i + 1 < |f| && f[i] == f[i + 1] == '$' && k == FirstNotOf(f, i + 1, {'$'})
    requires Progress(f, subst, i, done, formatted, r)
    ensures Progress(f, subst, k, done + Literals(f[i + 1..k]), formatted + f[i + 1..k], r)
  {
    AfterLiterals(f, subst, i, k, done, formatted, r, f[i + 1..k]);
  }

  lemma AfterPlain(f: string, subst: seq<string>, i: nat, done: seq<Token>, formatted: string,
      r: seq<ReplacementOffset>)
    requires i < |f| && f[i] != '$' && Progress(f, subst, i, done, formatted, r)
    ensures Progress(f, subst, i + 1, done + Literals([f[i]]), formatted + [f[i]], r)
  {
    assert [Literal(f[i])] == Literals([f[i]]);
    AfterLiterals(f, subst, i, i + 1, done, formatted, r, [f[i]]);
  }

  lemma AfterLastDollar(f: string, subst: seq<string>, i: nat, done: seq<Token>, formatted: string,
      r: seq<ReplacementOffset>)
    requires i + 1 == |f| && f[i] == '$' && Progress(f, subst, i, done, formatted, r)
    ensures Progress(f, subst, i + 1, done, formatted, r)
  {
  }

  lemma AfterPlaceholder(f: string, subst: seq<string>, i: nat, k: nat, done: seq<Token>, formatted: string,
                         r: seq<ReplacementOffset>, p: nat)
    requires i + 1 < |f| && f[i] == '$' && f[i + 1] != '$' && k == DigitsEnd(f, i + 1) && p == Parameter(f[i + 1..k])
    requires Progress(f, subst, i, done, formatted, r)
    ensures Progress(f, subst, k, done + [Placeholder(p)], formatted + TextOf(Placeholder(p), subst),
                     Insert(r, ReplacementOffset(p, |formatted|)))
  {
  }

  /** The loop's effect: the tokens done, and their sorted places when wanted. */
  ghost predicate State(f: string, subst: seq<string>, i: nat, done: seq<Token>, formatted: string,
                        wantOffsets: bool, rOffsets: seq<ReplacementOffset>)
  {
    && i <= |f| && done + Tokens(f, i) == Tokens(f, 0) && formatted == Render(done, subst)
    && rOffsets == if wantOffsets then Sorted(Places(done, subst)) else []
  }

  lemma StateIsProgress(f: string, subst: seq<string>, i: nat, done: seq<Token>, formatted: string,
                        wantOffsets: bool, rOffsets: seq<ReplacementOffset>, all: seq<ReplacementOffset>)
    requires i <= |f| && all == Sorted(Places(done, subst))
    ensures State(f, subst, i, done, formatted, wantOffsets, rOffsets)
       <==> Progress(f, subst, i, done, formatted, all) && rOffsets == if wantOffsets then all else []
  {
  }

  /** The run of dollars after the one at index i. */
  method ExpandRun(format: string, subst: seq<string>, i: nat, before: string, wantOffsets: bool,
                   rOffsets: seq<ReplacementOffset>, ghost done: seq<Token>)
    returns (formatted: string, k: nat, ghost after: seq<Token>)
    requires i + 1 < |format| && format[i] == format[i + 1] == '$'
    requires State(format, subst, i, done, before, wantOffsets, rOffsets)
    ensures i < k && State(format, subst, k, after, formatted, wantOffsets, rOffsets)
  {
    ghost var all := Sorted(Places(done, subst));
    formatted, k := CopyDollars(format, i + 1, before);
    after := done + Literals(format[i + 1..k]);
    StateIsProgress(format, subst, i, done, before, wantOffsets, rOffsets, all);
    AfterRun(format, subst, i, k, done, before, all);
    StateIsProgress(format, subst, k, after, formatted, wantOffsets, rOffsets, all);
  }

  /** The placeholder at index i. */
  method ExpandPlaceholder(format: string, subst: seq<string>, i: nat, before: string, wantOffsets: bool,
                           rOffsets0: seq<ReplacementOffset>, ghost done: seq<Token>)
    returns (formatted: string, k: nat, rOffsets: seq<ReplacementOffset>, ghost after: seq<Token>)
    requires i + 1 < |format| && format[i] == '$' && format[i + 1] != '$'
    requires State(format, subst, i, done, before, wantOffsets, rOffsets0)
    ensures i < k && State(format, subst, k, after, formatted, wantOffsets, rOffsets)
  {
    ghost var all := Sorted(Places(done, subst));
    var index;
    index, k := ReadIndex(format, i + 1);
    after := done + [Placeholder(index)];
    rOffsets := rOffsets0;
    if wantOffsets {
      rOffsets := Insert(rOffsets, ReplacementOffset(index, |before|));
    }
    formatted := AppendSubstitution(before, subst, index);
    StateIsProgress(format, subst, i, done, before, wantOffsets, rOffsets0, all);
    AfterPlaceholder(format, subst, i, k, done, before, all, index);
    StateIsProgress(format, subst, k, after, formatted, wantOffsets, rOffsets,
                    Insert(all, ReplacementOffset(index, |before|)));
  }

  /** A plain character at index i, or a dollar at the end. */
  lemma PlainState(f: string, subst: seq<string>, i: nat, before: string, wantOffsets: bool,
                   rOffsets: seq<ReplacementOffset>, done: seq<Token>)
    requires i < |f| && State(f, subst, i, done, before, wantOffsets, rOffsets)
    ensures f[i] != '$' ==>
      State(f, subst, i + 1, done + Literals([f[i]]), before + [f[i]], wantOffsets, rOffsets)
    ensures f[i] == '$' && i + 1 == |f| ==> State(f, subst, i + 1, done, before, wantOffsets, rOffsets)
  {
    var all := Sorted(Places(done, subst));
    StateIsProgress(f, subst, i, done, before, wantOffsets, rOffsets, all);
    if f[i] != '$' {
      AfterPlain(f, subst, i, done, before, all);
      StateIsProgress(f, subst, i + 1, done + Literals([f[i]]), before + [f[i]], wantOffsets, rOffsets, all);
    } else if i + 1 == |f| {
      AfterLastDollar(f, subst, i, done, before, all);
    }
  }

  /** The source's iterator steps back from the end of a run or of the digits before
      its loop advances it; here it goes on from that end directly. */
  method ReplaceStringPlaceholders(format: string, subst: seq<string>, wantOffsets: bool)
    returns (formatted: string, offsets: seq<nat>)
    ensures formatted == Render(Tokens(format, 0), subst)
    ensures offsets == if wantOffsets then OffsetsOf(Sorted(Places(Tokens(format, 0), subst))) else []
  {
    formatted, offsets := "", [];
    var rOffsets, i := [], 0;
    ghost var done := [];
    assert State(format, subst, i, done, formatted, wantOffsets, rOffsets);
    while i < |format|
      invariant State(format, subst, i, done, formatted, wantOffsets, rOffsets)
      decreases |format| - i
    {
      PlainState(format, subst, i, formatted, wantOffsets, rOffsets, done);
      if format[i] != '$' {
        done := done + Literals([format[i]]);
        formatted := formatted + [format[i]];
        i := i + 1;
      } else if i + 1 == |format| {
        i := i + 1;
      } else if format[i + 1] == '$' {
        formatted, i, done := ExpandRun(format, subst, i, formatted, wantOffsets, rOffsets, done);
      } else {
        formatted, i, rOffsets, done := ExpandPlaceholder(format, subst, i, formatted, wantOffsets, rOffsets, done);
      }
    }
    EndOfFormat(format, subst, done, formatted, wantOffsets, rOffsets);
    offsets := OffsetsOf(rOffsets);
  }

  lemma EndOfFormat(f: string, subst: seq<string>, done: seq<Token>, formatted: string, wantOffsets: bool,
                    rOffsets: seq<ReplacementOffset>)
    requires State(f, subst, |f|, done, formatted, wantOffsets, rOffsets)
    ensures done == Tokens(f, 0) && formatted == Render(done, subst)
    ensures OffsetsOf(rOffsets) == if wantOffsets then OffsetsOf(Sorted(Places(done, subst))) else []
  {
  }

  // ---- Escaping ----

  /** One more dollar in each maximal run of dollars. */
  function Escape(s: string, i: nat): string
    requires i <= |s|
    decreases |s| - i
  {
    if i == |s| then ""
    else if s[i] != '$' then [s[i]] + Escape(s, i + 1)
    else
      var k := FirstNotOf(s, i, {'$'});
      "$" + s[i..k] + Escape(s, k)
  }

  lemma EscapeBegins(s: string, i: nat)
    requires i < |s| && s[i] != '$'
    ensures Escape(s, i) != "" && Escape(s, i)[0] == s[i]
  {
  }

  lemma LiteralsAdd(a: string, b: string)
    ensures Literals(a) + Literals(b) == Literals(a + b)
  {
  }

  /** A run of dollars at the end of the text must not run on. */
  predicate Bounded(s: string, more: string) {
    more != "" && more[0] == '$' && s != "" ==> s[|s| - 1] != '$'
  }

  /** f continues from index j with the escape of what s has from index i on, and more. */
  lemma {:induction false} EscapeReads(f: string, j: nat, s: string, i: nat, more: string)
    requires j <= |f| && i <= |s| && f[j..] == Escape(s, i) + more && Bounded(s, more)
    ensures Tokens(f, j) == Literals(s[i..]) + Tokens(f, |f| - |more|)
    decreases |s| - i
  {
    if i == |s| {
      assert Literals(s[i..]) == [] && f[j..] == more;
    } else {
      hide Tokens, Escape, Bounded;
      var k := if s[i] != '$' then i + 1 else FirstNotOf(s, i, {'$'});
      var m := j + (k - i) + if s[i] != '$' then 0 else 1;
      if s[i] != '$' {
        EscapedPlain(f, j, s, i, more);
      } else {
        EscapeOfRun(s, i, k);
        EscapedRun(f, j, s, i, k, m, more);
      }
      EscapeReads(f, m, s, k, more);
      LiteralsAdd(s[i..k], s[k..]);
      assert s[i..] == s[i..k] + s[k..];
      Regroup(Literals(s[i..k]), Literals(s[k..]), Tokens(f, |f| - |more|));
    }
  }

  lemma EscapedPlain(f: string, j: nat, s: string, i: nat, more: string)
    requires j <= |f| && i < |s| && s[i] != '$' && f[j..] == Escape(s, i) + more
    ensures j < |f| && f[j + 1..] == Escape(s, i + 1) + more
    ensures Tokens(f, j) == Literals(s[i..i + 1]) + Tokens(f, j + 1)
  {
    hide Tokens, Escape;
    OneEscaped(s, i);
    OneThenMore(f, j, s[i], Escape(s, i + 1), more);
    PlainToken(f, j);
    assert s[i..i + 1] == [f[j]];
  }

  lemma OneEscaped(s: string, i: nat)
    requires i < |s| && s[i] != '$'
    ensures Escape(s, i) == [s[i]] + Escape(s, i + 1)
  {
  }

  lemma OneThenMore(f: string, j: nat, c: char, rest: string, more: string)
    requires j <= |f| && f[j..] == [c] + rest + more
    ensures j < |f| && f[j] == c && f[j + 1..] == rest + more
  {
  }

  lemma PlainToken(f: string, j: nat)
    requires j < |f| && f[j] != '$'
    ensures Tokens(f, j) == Literals([f[j]]) + Tokens(f, j + 1)
  {
    assert Literals([f[j]]) == [Literal(f[j])];
  }

  lemma ThreeParts(f: string, j: nat, run: string, rest: string, more: string)
    requires j <= |f| && f[j..] == "$" + run + rest + more
    ensures j + 1 + |run| <= |f| && f[j] == '$'
    ensures f[j + 1..j + 1 + |run|] == run && f[j + 1 + |run|..] == rest + more
  {
  }

  lemma RunTokens(f: string, j: nat, m: nat, run: string)
    requires j + 1 < m <= |f| && f[j] == '$' && f[j + 1..m] == run && m == FirstNotOf(f, j + 1, {'$'})
    ensures Tokens(f, j) == Literals(run) + Tokens(f, m)
  {
  }

  lemma EscapeOfRun(s: string, i: nat, k: nat)
    requires i < |s| && s[i] == '$' && k == FirstNotOf(s, i, {'$'})
    ensures i < k && Escape(s, i) == "$" + s[i..k] + Escape(s, k)
  {
  }

  lemma EscapedRun(f: string, j: nat, s: string, i: nat, k: nat, m: nat, more: string)
    requires j <= |f| && i < k <= |s| && k == FirstNotOf(s, i, {'$'}) && m == j + 1 + (k - i) && Bounded(s, more)
    requires f[j..] == "$" + s[i..k] + Escape(s, k) + more
    ensures m <= |f| && f[m..] == Escape(s, k) + more
    ensures Tokens(f, j) == Literals(s[i..k]) + Tokens(f, m)
  {
    ThreeParts(f, j, s[i..k], Escape(s, k), more);
    RunEnds(f, j + 1, m, s, i, k, more);
    RunTokens(f, j, m, s[i..k]);
  }

  lemma RunEnds(f: string, j: nat, m: nat, s: string, i: nat, k: nat, more: string)
    requires i < k <= |s| && j + (k - i) == m <= |f| && f[j..m] == s[i..k] && f[m..] == Escape(s, k) + more
    requires k == FirstNotOf(s, i, {'$'}) && Bounded(s, more)
    ensures FirstNotOf(f, j, {'$'}) == m
  {
    forall x | j <= x < m ensures f[x] == '$' {
      assert f[x] == f[j..m][x - j] == s[i..k][x - j] == s[i + (x - j)];
    }
    if m < |f| {
      assert f[m..][0] == f[m];
    }
    if k < |s| {
      EscapeBegins(s, k);
    } else {
      assert s[k - 1] == '$';
    }
  }

  /** Expanding an escaped text gives the text back, whatever the substitutions,
      and reports no offsets. */
  lemma ExpandUndoesEscape(s: string, subst: seq<string>)
    ensures Render(Tokens(Escape(s, 0), 0), subst) == s
    ensures Places(Tokens(Escape(s, 0), 0), subst) == []
  {
    var f := Escape(s, 0);
    assert f[0..] == f && s[0..] == s;
    assert f + "" == f;
    EscapeReads(f, 0, s, 0, "");
    assert Literals(s) + [] == Literals(s);
    RenderLiterals([], s, subst);
    PlacesLiterals([], s, subst);
    assert [] + Literals(s) == Literals(s) && "" + s == s;
  }

  // ---- What the offsets mean ----

  ghost predicate Ordered(r: seq<ReplacementOffset>) {
    forall i, j :: 0 <= i < j < |r| ==> r[i].parameter <= r[j].parameter
  }

  lemma InsertKeeps(r: seq<ReplacementOffset>, x: ReplacementOffset)
    requires Ordered(r)
    ensures Ordered(Insert(r, x)) && multiset(Insert(r, x)) == multiset(r) + multiset{x}
  {
    var i := LowerBound(r, x.parameter);
    assert r == r[..i] + r[i..];
  }

  /** The reported offsets are all places, ordered by parameter. */
  lemma {:induction false} SortedIsOrdered(places: seq<ReplacementOffset>)
    ensures Ordered(Sorted(places)) && multiset(Sorted(places)) == multiset(places)
    decreases places
  {
    if places != [] {
      var init, x := places[..|places| - 1], places[|places| - 1];
      SortedIsOrdered(init);
      InsertKeeps(Sorted(init), x);
      assert places == init + [x];
    }
  }

  /** The text of the parameter stands at the offset. */
  predicate PointsAt(text: string, x: ReplacementOffset, subst: seq<string>) {
    var t := TextOf(Placeholder(x.parameter), subst);
    x.offset + |t| <= |text| && text[x.offset..x.offset + |t|] == t
  }

  lemma PointsAtLonger(text: string, more: string, x: ReplacementOffset, subst: seq<string>)
    requires PointsAt(text, x, subst)
    ensures PointsAt(text + more, x, subst)
  {
  }

  lemma {:induction false} PlacesPoint(tokens: seq<Token>, subst: seq<string>)
    ensures forall x :: x in Places(tokens, subst) ==> PointsAt(Render(tokens, subst), x, subst)
    decreases tokens
  {
    if tokens != [] {
      var n := |tokens| - 1;
      var before, text := Render(tokens[..n], subst), TextOf(tokens[n], subst);
      PlacesPoint(tokens[..n], subst);
      forall x | x in Places(tokens, subst) ensures PointsAt(before + text, x, subst) {
        if x in Places(tokens[..n], subst) {
          PointsAtLonger(before, text, x, subst);
        } else {
          assert tokens[n] == Placeholder(x.parameter) && x.offset == |before|;
        }
      }
    }
  }

  /** For every format: the offsets that ReplaceStringPlaceholders reports belong to
      its placeholders, one each, ordered by parameter, and each points at the
      beginning of its substituted text in the final output. */
  lemma OffsetsAreRight(format: string, subst: seq<string>)
    ensures var tokens := Tokens(format, 0);
            var r := Sorted(Places(tokens, subst));
            && Ordered(r) && multiset(r) == multiset(Places(tokens, subst))
            && (forall x :: x in r ==> PointsAt(Render(tokens, subst), x, subst))
  {
    var tokens := Tokens(format, 0);
    var places := Places(tokens, subst);
    SortedIsOrdered(places);
    PlacesPoint(tokens, subst);
    forall x | x in Sorted(places) ensures x in places {
      assert multiset(Sorted(places))[x] == multiset(places)[x];
    }
  }
}
