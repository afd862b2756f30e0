// Formats as a user writes them: texts with placeholders between, and what they
// expand to.

module Templates {
  import opened Numbers
  import opened Placeholders
  import opened Strings
  import opened Text

  /** A text, and after it a placeholder with its digits and the rest of the template,
      or the end of it, maybe with a dollar that stands for nothing. */
  datatype Template =
    | End(text: string, dollar: bool)
    | Item(text: string, digits: string, rest: Template)

  /** The template as a format: texts escaped, placeholders with a dollar in front. */
  function Format(t: Template): string {
    match t
    case End(text, dollar) => Escape(text, 0) + if dollar then "$" else ""
    case Item(text, digits, rest) => Escape(text, 0) + ("$" + (digits + Format(rest)))
  }

  predicate EndsWithDollar(s: string) {
    s != "" && s[|s| - 1] == '$'
  }

  /** No dollar runs into another, and no digits into others. A placeholder without
      digits is followed by something else. */
  predicate WellFormed(t: Template) {
    match t
    case End(text, dollar) => dollar ==> !EndsWithDollar(text)
    case Item(text, digits, rest) =>
      && !EndsWithDollar(text) && AllDigits(digits) && WellFormed(rest)
      && (Format(rest) != "" ==> !IsDigit(Format(rest)[0]))
      && (digits == "" ==> Format(rest) != "" && Format(rest)[0] != '$')
  }

  /** The substitution that the number asks for, counted from 1 in a machine word. */
  function Substituted(digits: string, subst: seq<string>): string
    requires AllDigits(digits)
  {
    var n := Decimal(digits) % WORD;
    if 1 <= n <= |subst| then subst[n - 1] else ""
  }

  function Expansion(t: Template, subst: seq<string>): string
    requires WellFormed(t)
  {
    match t
    case End(text, _) => text
    case Item(text, digits, rest) => text + Substituted(digits, subst) + Expansion(rest, subst)
  }

  /** Each placeholder with where its substitution begins, in the order of the format. */
  function Marks(t: Template, subst: seq<string>, at: nat): seq<ReplacementOffset>
    requires WellFormed(t)
  {
    match t
    case End(_, _) => []
    case Item(text, digits, rest) =>
      [ReplacementOffset((Decimal(digits) + WORD - 1) % WORD, at + |text|)]
      + Marks(rest, subst, at + |text| + |Substituted(digits, subst)|)
  }

  // ---- One placeholder ----

  lemma DigitsEndAt(s: string, i: nat, m: nat)
    requires i <= m <= |s| && AllDigits(s[i..m]) && (m < |s| ==> !IsDigit(s[m]))
    ensures DigitsEnd(s, i) == m
  {
    var k := DigitsEnd(s, i);
    forall x | i <= x < m ensures IsDigit(s[x]) {
      assert s[x] == s[i..m][x - i];
    }
    forall x | i <= x < k ensures IsDigit(s[x]) {
      assert s[x] == s[i..k][x - i];
    }
  }

  lemma DollarThenDigits(f: string, j: nat, digits: string, more: string)
    requires j <= |f| && f[j..] == "$" + (digits + more)
    ensures var m := j + 1 + |digits|;
      m <= |f| && f[j] == '$' && f[j + 1..m] == digits && f[m..] == more && m == |f| - |more|
    ensures more != "" ==> |f| - |more| < |f| && f[|f| - |more|] == more[0]
  {
    assert more != "" ==> f[j + 1 + |digits|..][0] == more[0];
  }

  lemma PlaceholderToken(f: string, j: nat, digits: string, more: string)
    requires j <= |f| && f[j..] == "$" + (digits + more) && AllDigits(digits)
    requires more != "" ==> !IsDigit(more[0])
    requires digits == "" ==> more != "" && more[0] != '$'
    ensures |more| <= |f| && Tokens(f, j) == [Placeholder(Parameter(digits))] + Tokens(f, |f| - |more|)
  {
    hide Tokens, Parameter, DigitsEnd;
    var m := j + 1 + |digits|;
    DollarThenDigits(f, j, digits, more);
    DigitsEndAt(f, j + 1, m);
    assert j + 1 < |f| && f[j + 1] != '$' by {
      assert digits != "" ==> f[j + 1] == f[j + 1..m][0] == digits[0];
    }
    DollarToken(f, j, m);
  }

  lemma DollarToken(f: string, j: nat, m: nat)
    requires j + 1 < |f| && f[j] == '$' && f[j + 1] != '$' && m == DigitsEnd(f, j + 1)
    ensures Tokens(f, j) == [Placeholder(Parameter(f[j + 1..m]))] + Tokens(f, m)
  {
  }

  lemma ParameterSubstitutes(digits: string, subst: seq<string>)
    requires AllDigits(digits) && |subst| < WORD
    ensures TextOf(Placeholder(Parameter(digits)), subst) == Substituted(digits, subst)
  {
    var n := Decimal(digits) % WORD;
    WordMinusOne(Decimal(digits));
    assert Parameter(digits) == if n == 0 then WORD - 1 else n - 1;
  }

  lemma LastDollar(f: string, j: nat)
    requires j + 1 == |f| && f[j] == '$'
    ensures Tokens(f, j) == []
  {
  }

  // ---- A whole template ----

  /** The text up to the placeholder, then the placeholder. */
  lemma ItemTokens(f: string, j: nat, t: Template)
    requires j <= |f| && t.Item? && WellFormed(t) && f[j..] == Format(t)
    ensures |Format(t.rest)| <= |f|
    ensures Tokens(f, j)
         == Literals(t.text) + ([Placeholder(Parameter(t.digits))] + Tokens(f, |f| - |Format(t.rest)|))
  {
    hide Tokens, Escape, Format, WellFormed;
    var more := "$" + (t.digits + Format(t.rest));
    ItemFormat(t);
    EscapeReads(f, j, t.text, 0, more);
    assert f[|f| - |more|..] == f[j..][|f| - j - |more|..] == more;
    PlaceholderToken(f, |f| - |more|, t.digits, Format(t.rest));
    assert t.text[0..] == t.text;
  }

  lemma ItemFormat(t: Template)
    requires t.Item? && WellFormed(t)
    ensures Format(t) == Escape(t.text, 0) + ("$" + (t.digits + Format(t.rest)))
    ensures !EndsWithDollar(t.text) && AllDigits(t.digits) && WellFormed(t.rest)
    ensures Format(t.rest) != "" ==> !IsDigit(Format(t.rest)[0])
    ensures t.digits == "" ==> Format(t.rest) != "" && Format(t.rest)[0] != '$'
  {
  }

  lemma EndTokens(f: string, j: nat, t: Template)
    requires j <= |f| && t.End? && WellFormed(t) && f[j..] == Format(t)
    ensures Tokens(f, j) == Literals(t.text)
  {
    hide Tokens, Escape;
    var more := if t.dollar then "$" else "";
    EscapeReads(f, j, t.text, 0, more);
    assert t.text[0..] == t.text;
    if t.dollar {
      assert f[|f| - 1] == f[j..][|f| - j - 1] == '$';
      LastDollar(f, |f| - 1);
    } else {
      assert Tokens(f, |f|) == [] by {
        NothingLeft(f);
      }
    }
    assert Literals(t.text) + [] == Literals(t.text);
  }

  lemma NothingLeft(f: string)
    ensures Tokens(f, |f|) == []
  {
  }

  /** Reading on from index j, after the tokens done, expands the template there. */
  lemma {:induction false} ExpandsFrom(f: string, j: nat, t: Template, subst: seq<string>, done: seq<Token>)
    requires j <= |f| && WellFormed(t) && f[j..] == Format(t) && |subst| < WORD
    ensures Render(done + Tokens(f, j), subst) == Render(done, subst) + Expansion(t, subst)
    ensures Places(done + Tokens(f, j), subst) == Places(done, subst) + Marks(t, subst, |Render(done, subst)|)
    decreases t
  {
    hide Tokens, Render, Places, Format, Parameter;
    if t.End? {
      EndTokens(f, j, t);
      RenderLiterals(done, t.text, subst);
      PlacesLiterals(done, t.text, subst);
    } else {
      var p := Placeholder(Parameter(t.digits));
      var k := |f| - |Format(t.rest)|;
      var after := done + Literals(t.text) + [p];
      ItemTokens(f, j, t);
      ItemAdvances(t, subst, done, p, after);
      RestOfFormat(f, j, t);
      ExpandsFrom(f, k, t.rest, subst, after);
      Regroup3(done, Literals(t.text), [p], Tokens(f, k));
    }
  }

  lemma Regroup3(a: seq<Token>, b: seq<Token>, c: seq<Token>, d: seq<Token>)
    ensures a + (b + (c + d)) == a + b + c + d
  {
  }

  lemma RestOfFormat(f: string, j: nat, t: Template)
    requires j <= |f| && t.Item? && f[j..] == Format(t)
    ensures |Format(t.rest)| <= |f| && f[|f| - |Format(t.rest)|..] == Format(t.rest)
  {
    assert f[|f| - |Format(t.rest)|..] == f[j..][|f| - j - |Format(t.rest)|..];
  }

  lemma ItemAdvances(t: Template, subst: seq<string>, done: seq<Token>, p: Token, after: seq<Token>)
    requires t.Item? && AllDigits(t.digits) && |subst| < WORD
    requires p == Placeholder(Parameter(t.digits)) && after == done + Literals(t.text) + [p]
    ensures Render(after, subst) == Render(done, subst) + (t.text + Substituted(t.digits, subst))
    ensures Places(after, subst) == Places(done, subst)
         + [ReplacementOffset((Decimal(t.digits) + WORD - 1) % WORD, |Render(done, subst)| + |t.text|)]
  {
    hide WellFormed, Render, Places, Decimal, TextOf, Substituted;
    RenderLiterals(done, t.text, subst);
    PlacesLiterals(done, t.text, subst);
    RenderOne(done + Literals(t.text), p, subst);
    PlacesOne(done + Literals(t.text), p, subst);
    ParameterSubstitutes(t.digits, subst);
    ThreeTexts(Render(done, subst), t.text, Substituted(t.digits, subst));
  }

  lemma ThreeTexts(a: string, b: string, c: string)
    ensures (a + b) + c == a + (b + c)
  {
  }

  /** A template expands to its texts, with substitution n in place of every $n, and
      nothing in place of a number that is 0 or beyond the last substitution. The
      placeholders are at the offsets where their substitutions begin. */
  lemma TemplateExpands(t: Template, subst: seq<string>)
    requires WellFormed(t) && |subst| < WORD
    ensures Render(Tokens(Format(t), 0), subst) == Expansion(t, subst)
    ensures Places(Tokens(Format(t), 0), subst) == Marks(t, subst, 0)
  {
    hide Tokens, Format, Expansion, Marks, WellFormed;
    var f := Format(t);
    assert f[0..] == f;
    ExpandsFrom(f, 0, t, subst, []);
    assert [] + Tokens(f, 0) == Tokens(f, 0);
    assert Render([], subst) == "" && Places([], subst) == [];
    assert "" + Expansion(t, subst) == Expansion(t, subst);
  }

  /** The service's file: "$1" and an extension without dollars. */
  lemma ServiceFile(extension: string, service: string)
    requires Free(extension, {'$'}) && (extension != "" ==> !IsDigit(extension[0]))
    ensures Render(Tokens("$1" + extension, 0), [service]) == service + extension
  {
    hide Tokens, Render;
    var t := Item("", "1", End(extension, false));
    ServiceTemplate(extension);
    TemplateExpands(t, [service]);
    assert Expansion(t, [service]) == "" + service + extension by {
      OneIsOne();
    }
  }

  lemma OneIsOne()
    ensures AllDigits("1") && Decimal("1") == 1
  {
    assert "1"[..0] == "";
  }

  lemma ServiceTemplate(extension: string)
    requires Free(extension, {'$'}) && (extension != "" ==> !IsDigit(extension[0]))
    ensures var t := Item("", "1", End(extension, false));
      WellFormed(t) && Format(t) == "$1" + extension
  {
    EscapeOfFree(extension, 0);
    assert extension[0..] == extension;
    var end := End(extension, false);
    assert Format(end) == extension + "" == extension;
    assert Escape("", 0) == "";
    assert "" + ("$" + ("1" + extension)) == "$1" + extension;
  }

  lemma {:induction false} EscapeOfFree(s: string, i: nat)
    requires i <= |s| && Free(s, {'$'})
    ensures Escape(s, i) == s[i..]
    decreases |s| - i
  {
    if i < |s| {
      assert s[i] in s;
      EscapeOfFree(s, i + 1);
    }
  }

  // ---- Every format is a template ----

  /** The text in front of the template. */
  function Prepend(front: string, t: Template): Template {
    t.(text := front + t.text)
  }

  /** Escaping goes by runs, so a text that begins without a dollar is escaped apart. */
  lemma {:induction false} EscapeShifts(front: string, s: string, i: nat)
    requires i <= |s|
    ensures Escape(front + s, |front| + i) == Escape(s, i)
    decreases |s| - i
  {
    hide Escape, FirstNotOf;
    var all := front + s;
    if i == |s| {
      EscapeEnds(s);
      EscapeEnds(all);
    } else {
      assert all[|front| + i] == s[i];
      if s[i] != '$' {
        OneEscaped(s, i);
        OneEscaped(all, |front| + i);
        EscapeShifts(front, s, i + 1);
      } else {
        var k := FirstNotOf(s, i, {'$'});
        RunShifts(front, s, i, k);
        EscapeOfRun(s, i, k);
        EscapeOfRun(all, |front| + i, |front| + k);
        EscapeShifts(front, s, k);
      }
    }
  }

  lemma EscapeEnds(s: string)
    ensures Escape(s, |s|) == ""
  {
  }

  lemma RunShifts(front: string, s: string, i: nat, k: nat)
    requires i < |s| && k == FirstNotOf(s, i, {'$'})
    ensures FirstNotOf(front + s, |front| + i, {'$'}) == |front| + k
    ensures (front + s)[|front| + i..|front| + k] == s[i..k]
  {
    var all := front + s;
    forall j | |front| + i <= j < |front| + k ensures all[j] == '$' {
      assert all[j] == s[j - |front|];
    }
    assert k < |s| ==> all[|front| + k] == s[k];
  }

  lemma PrependKeeps(front: string, t: Template, escaped: string)
    requires WellFormed(t) && Escape(front + t.text, 0) == escaped + Escape(t.text, 0)
    requires EndsWithDollar(front + t.text) ==> EndsWithDollar(t.text) || t == End("", false)
    ensures WellFormed(Prepend(front, t)) && Format(Prepend(front, t)) == escaped + Format(t)
  {
    hide Escape, EndsWithDollar;
    var tail := if t.End? then (if t.dollar then "$" else "") else "$" + (t.digits + Format(t.rest));
    assert Format(t) == Escape(t.text, 0) + tail;
    assert Format(Prepend(front, t)) == (escaped + Escape(t.text, 0)) + tail;
    ThreeTexts(escaped, Escape(t.text, 0), tail);
  }

  lemma PrependPlain(c: char, t: Template)
    requires c != '$' && WellFormed(t)
    ensures WellFormed(Prepend([c], t)) && Format(Prepend([c], t)) == [c] + Format(t)
  {
    hide WellFormed, Format;
    EscapeShifts([c], t.text, 0);
    OneEscaped([c] + t.text, 0);
    PrependKeeps([c], t, [c]);
  }

  lemma BeginsWithDollar(t: Template)
    requires WellFormed(t) && (Format(t) == "" || Format(t)[0] != '$')
    ensures t.text == "" || t.text[0] != '$'
    ensures t.text == "" ==> t == End("", false)
  {
  }

  lemma PrependRun(run: string, t: Template)
    requires run != "" && (forall i :: 0 <= i < |run| ==> run[i] == '$') && WellFormed(t)
    requires Format(t) == "" || Format(t)[0] != '$'
    ensures WellFormed(Prepend(run, t)) && Format(Prepend(run, t)) == "$" + run + Format(t)
  {
    BeginsWithDollar(t);
    var text := run + t.text;
    EscapeShifts(run, t.text, 0);
    assert t.text != "" ==> text[|run|] == t.text[0];
    assert FirstNotOf(text, 0, {'$'}) == |run|;
    EscapeOfRun(text, 0, |run|);
    assert text[0..|run|] == run;
    assert t.text != "" ==> text[|text| - 1] == t.text[|t.text| - 1];
    PrependKeeps(run, t, "$" + run);
  }

  /** So what a template expands to is what any format expands to. */
  lemma {:induction false} EveryFormat(f: string) returns (t: Template)
    ensures WellFormed(t) && Format(t) == f
    decreases |f|
  {
    if f == "" {
      t := End("", false);
    } else if f[0] != '$' {
      t := EveryFormat(f[1..]);
      PrependPlain(f[0], t);
      t := Prepend([f[0]], t);
      assert f == [f[0]] + f[1..];
    } else if f == "$" {
      t := End("", true);
    } else if f[1] == '$' {
      var k := FirstNotOf(f, 1, {'$'});
      t := EveryFormat(f[k..]);
      PrependRun(f[1..k], t);
      t := Prepend(f[1..k], t);
      assert f == "$" + f[1..k] + f[k..];
    } else {
      var k := DigitsEnd(f, 1);
      var rest := EveryFormat(f[k..]);
      t := Item("", f[1..k], rest);
      ItemIsWellFormed(f, k, rest);
    }
  }

  lemma ItemIsWellFormed(f: string, k: nat, rest: Template)
    requires |f| >= 2 && f[0] == '$' && f[1] != '$' && k == DigitsEnd(f, 1) && WellFormed(rest) && Format(rest) == f[k..]
    ensures WellFormed(Item("", f[1..k], rest)) && Format(Item("", f[1..k], rest)) == f
  {
    assert f == "" + ("$" + (f[1..k] + f[k..]));
    assert k < |f| ==> f[k..][0] == f[k];
  }
}
