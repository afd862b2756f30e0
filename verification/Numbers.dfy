// Decimal numerals, and the numbers that atoi reads from text.

module Numbers {
  import opened Strings
  import opened Text

  predicate IsDigit(ch: char) { '0' <= ch <= '9' }

  predicate AllDigits(s: string) { forall i :: 0 <= i < |s| ==> IsDigit(s[i]) }

  function Decimal(s: string): nat
    requires AllDigits(s)
  {
    if s == "" then 0 else Decimal(s[..|s| - 1]) * 10 + (s[|s| - 1] - '0') as nat
  }

  lemma NextDigit(f: string, j: nat, i: nat)
    requires j <= i < |f| && AllDigits(f[j..i]) && IsDigit(f[i])
    ensures AllDigits(f[j..i + 1])
    ensures Decimal(f[j..i + 1]) == Decimal(f[j..i]) * 10 + (f[i] - '0') as nat
  {
    assert f[j..i + 1][..i - j] == f[j..i];
  }

  function Digit(d: nat): (ch: char)
    requires d < 10
    ensures IsDigit(ch) && (ch - '0') as nat == d
  {
    '0' + d as char
  }

  function Digits(n: nat): (s: string)
    ensures s != "" && AllDigits(s)
  {
    if n < 10 then [Digit(n)] else Digits(n / 10) + [Digit(n % 10)]
  }

  lemma {:induction false} DecimalOfDigits(n: nat)
    ensures Decimal(Digits(n)) == n
  {
    var s := Digits(n);
    if n < 10 {
      assert s[..0] == "";
    } else {
      DecimalOfDigits(n / 10);
      assert s[..|s| - 1] == Digits(n / 10);
    }
  }

  function PrintInt(n: int): string {
    if n < 0 then "-" + Digits(-n) else Digits(n)
  }

  /** The end of the digits from index i on. */
  function DigitsEnd(s: string, i: nat): (k: nat)
    requires i <= |s|
    ensures i <= k <= |s| && AllDigits(s[i..k])
    ensures k < |s| ==> !IsDigit(s[k])
    decreases |s| - i
  {
    if i == |s| || !IsDigit(s[i]) then i
    else
      var k := DigitsEnd(s, i + 1);
      assert s[i..k] == [s[i]] + s[i + 1..k];
      k
  }

  /** atoi: blanks, an optional sign, and as many digits as follow. A number too
      large for an int, for which atoi is undefined, is kept as it is. */
  function Atoi(s: string): int {
    var i := FirstNotOf(s, 0, WHITESPACE);
    if i < |s| && s[i] == '-' then 0 - Decimal(s[i + 1..DigitsEnd(s, i + 1)])
    else if i < |s| && s[i] == '+' then Decimal(s[i + 1..DigitsEnd(s, i + 1)])
    else Decimal(s[i..DigitsEnd(s, i)])
  }

  lemma {:induction false} DigitsEndAtEnd(s: string, i: nat)
    requires i <= |s| && AllDigits(s[i..])
    ensures DigitsEnd(s, i) == |s|
    decreases |s| - i
  {
  }

  /** atoi reads back every number that was printed. */
  lemma AtoiOfPrintInt(n: int)
    ensures Atoi(PrintInt(n)) == n
  {
    var s := PrintInt(n);
    var i := if n < 0 then 1 else 0;
    var digits := if n < 0 then Digits(-n) else Digits(n);
    assert s[i..] == digits && s[i..|s|] == digits;
    assert IsDigit(digits[0]) && s[0] !in WHITESPACE;
    assert FirstNotOf(s, 0, WHITESPACE) == 0;
    DigitsEndAtEnd(s, i);
    DecimalOfDigits(if n < 0 then -n else n);
  }

  /** Blanks, an optional sign, any digits, and then anything else: only the sign and
      the digits count, and no digits are zero. */
  lemma AtoiReads(blanks: string, sign: string, digits: string, more: string)
    requires AllBlank(blanks) && sign in {"", "+", "-"} && AllDigits(digits)
    requires more != "" ==> !IsDigit(more[0]) && (sign == digits == "" ==> more[0] !in WHITESPACE + {'+', '-'})
    ensures Atoi(blanks + (sign + (digits + more))) == if sign == "-" then 0 - Decimal(digits) else Decimal(digits)
  {
    hide FirstNotOf, Decimal, DigitsEnd;
    var s, i := blanks + (sign + (digits + more)), |blanks|;
    AfterFront(blanks, sign + (digits + more));
    AfterFront(blanks + sign, digits + more);
    assert (blanks + sign) + (digits + more) == s;
    AfterBlanks(s, i, sign, digits, more);
    DigitsStop(s, i + |sign|, digits, more);
  }

  lemma AfterFront(front: string, rest: string)
    ensures (front + rest)[|front|..] == rest && forall j :: 0 <= j < |front| ==> (front + rest)[j] == front[j]
  {
  }

  predicate AllBlank(s: string) {
    forall i :: 0 <= i < |s| ==> s[i] in WHITESPACE
  }

  lemma DigitsStop(s: string, i: nat, digits: string, more: string)
    requires i <= |s| && s[i..] == digits + more && AllDigits(digits) && (more != "" ==> !IsDigit(more[0]))
    ensures s[i..DigitsEnd(s, i)] == digits
  {
    var k, m := DigitsEnd(s, i), i + |digits|;
    forall x | i <= x < m ensures IsDigit(s[x]) {
      assert s[x] == s[i..][x - i] == digits[x - i];
    }
    forall x | i <= x < k ensures IsDigit(s[x]) {
      assert s[x] == s[i..k][x - i];
    }
    if more != "" {
      assert s[m] == s[i..][m - i] == more[0];
    }
    assert s[i..m] == s[i..][..m - i] == digits;
  }

  lemma AfterBlanks(s: string, i: nat, sign: string, digits: string, more: string)
    requires i <= |s| && (forall j :: 0 <= j < i ==> s[j] in WHITESPACE) && s[i..] == sign + (digits + more)
    requires sign in {"", "+", "-"} && AllDigits(digits)
    requires more != "" && sign == digits == "" ==> more[0] !in WHITESPACE + {'+', '-'}
    ensures FirstNotOf(s, 0, WHITESPACE) == i
    ensures sign == "-" <==> i < |s| && s[i] == '-'
    ensures sign == "+" <==> i < |s| && s[i] == '+'
  {
    if i < |s| {
      assert s[i] == s[i..][0];
    }
  }

  /** A printed number has no blank, comma or equals sign. */
  lemma PrintIntIsPlain(n: int)
    ensures PrintInt(n) != "" && forall c :: c in PrintInt(n) ==> c == '-' || IsDigit(c)
  {
  }
}
