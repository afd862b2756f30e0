// Trimming, splitting and key-value splitting.

module Strings {
  import opened Text

  /** kWhitespaceASCII. */
  const WHITESPACE := {'\t', '\n', '\U{0B}', '\U{0C}', '\r', ' '}

  function FirstNotOf(s: string, lo: nat, chars: set<char>): (i: nat)
    requires lo <= |s|
    ensures lo <= i <= |s|
    ensures forall j :: lo <= j < i ==> s[j] in chars
    ensures i < |s| ==> s[i] !in chars
    decreases |s| - lo
  {
    if lo == |s| || s[lo] !in chars then lo else FirstNotOf(s, lo + 1, chars)
  }

  function LastNotOf(s: string, hi: nat, chars: set<char>): (i: int)
    requires hi <= |s|
    ensures -1 <= i < hi
    ensures forall j :: i < j < hi ==> s[j] in chars
    ensures 0 <= i ==> s[i] !in chars
  {
    if hi == 0 then -1 else if s[hi - 1] !in chars then hi - 1 else LastNotOf(s, hi - 1, chars)
  }

  datatype TrimResult = TrimResult(output: string, leading: bool, trailing: bool)

  /** The trimmed text and the sides that lost something. All-blank input reports
      every side the caller asked for, empty input none. */
  function TrimString(input: string, chars: set<char>, leading: bool, trailing: bool): (r: TrimResult) {
    var first := if leading then FirstNotOf(input, 0, chars) else 0;
    var last := if trailing then LastNotOf(input, |input|, chars) else |input| - 1;
    if input == "" || first == |input| || last == -1 then
      TrimResult("", input != "" && leading, input != "" && trailing)
    else
      assert first <= last by {
        assert leading ==> input[first] !in chars;
      }
      TrimResult(input[first..last + 1], first != 0, last != |input| - 1)
  }

  /** Only the listed characters are lost, only from the sides asked for and
      reported, and none of them is left there. */
  lemma TrimIsExact(input: string, chars: set<char>, leading: bool, trailing: bool) returns (lo: nat, hi: nat)
    ensures lo <= hi <= |input| && TrimString(input, chars, leading, trailing).output == input[lo..hi]
    ensures forall i :: 0 <= i < lo || hi <= i < |input| ==> input[i] in chars
    ensures lo < hi && leading ==> input[lo] !in chars
    ensures lo < hi && trailing ==> input[hi - 1] !in chars
    ensures lo < hi ==> TrimString(input, chars, leading, trailing) == TrimResult(input[lo..hi], lo != 0, hi != |input|)
    ensures var blank := TrimResult("", input != "" && leading, input != "" && trailing);
      lo == hi ==> TrimString(input, chars, leading, trailing) == blank
    ensures lo == hi <==> input == "" || ((leading || trailing) && forall i :: 0 <= i < |input| ==> input[i] in chars)
    ensures !leading && !trailing ==> lo == 0 && hi == |input|
  {
    var first := if leading then FirstNotOf(input, 0, chars) else 0;
    var last := if trailing then LastNotOf(input, |input|, chars) else |input| - 1;
    if input == "" || first == |input| || last == -1 {
      lo, hi := |input|, |input|;
    } else {
      lo, hi := first, last + 1;
    }
  }

  function TrimWhitespace(input: string): string { TrimString(input, WHITESPACE, true, true).output }

  /** Neither end is blank. */
  predicate Bare(s: string) {
    s != "" ==> s[0] !in WHITESPACE && s[|s| - 1] !in WHITESPACE
  }

  /** Trimming changes exactly the strings with a blank end. */
  lemma TrimKeepsBare(s: string)
    ensures TrimWhitespace(s) == s <==> Bare(s)
    ensures Bare(TrimWhitespace(s))
  {
  }

  function Trimmed(pieces: seq<string>): (r: seq<string>)
    ensures |r| == |pieces|
    ensures forall i :: 0 <= i < |r| ==> r[i] == TrimWhitespace(pieces[i])
  {
    seq(|pieces|, i requires 0 <= i < |pieces| => TrimWhitespace(pieces[i]))
  }

  /** The pieces as the caller wants them. */
  function Delivered(pieces: seq<string>, trim: bool): seq<string> {
    if trim then Trimmed(pieces) else pieces
  }

  lemma DeliveredAppend(pieces: seq<string>, piece: string, trim: bool)
    ensures Delivered(pieces + [piece], trim) == Delivered(pieces,
        trim) + [if trim then TrimWhitespace(piece) else piece]
  {
  }

  /** What is still to be split off from index last on. */
  function Remaining(s: string, last: nat, separator: char): seq<string> {
    if last <= |s| then Split(s[last..], separator) else []
  }

  /** The scan from last has reached i, a separator or the end, without another separator. */
  lemma NextPiece(s: string, last: nat, i: nat, separator: char)
    requires last <= i <= |s| && (forall j :: last <= j < i ==> s[j] != separator)
    requires i < |s| ==> s[i] == separator
    ensures Remaining(s, last, separator) == [s[last..i]] + Remaining(s, i + 1, separator)
  {
    var rest := s[last..];
    FirstInSegment(rest, 0, i - last, |rest|, {separator}, s[last..i]);
    if i < |s| {
      assert rest[i - last + 1..] == s[i + 1..];
    } else {
      assert rest == s[last..i] && Split(rest, separator) == [rest];
    }
  }

  lemma Regroup(done: seq<string>, piece: string, rest: seq<string>)
    ensures done + ([piece] + rest) == (done + [piece]) + rest
  {
  }

  lemma Advance(done: seq<string>, whole: seq<string>, s: string, last: nat, i: nat, separator: char)
    requires last <= i <= |s| && (forall j :: last <= j < i ==> s[j] != separator)
    requires i < |s| ==> s[i] == separator
    requires done + Remaining(s, last, separator) == whole
    ensures (done + [s[last..i]]) + Remaining(s, i + 1, separator) == whole
  {
    NextPiece(s, last, i, separator);
    Regroup(done, s[last..i], Remaining(s, i + 1, separator));
  }

  lemma NothingSplit(str: string, separator: char, trim: bool)
    ensures [] + Remaining(str, 0, separator) == Split(str, separator) && Delivered([], trim) == []
  {
    assert str[0..] == str;
  }

  lemma AllSplit(done: seq<string>, whole: seq<string>, str: string, separator: char)
    requires done + Remaining(str, |str| + 1, separator) == whole
    ensures done == whole
  {
  }

  method SplitStringT(str: string, s: char, trimWhitespace: bool) returns (r: seq<string>)
    ensures r == Delivered(Split(str, s), trimWhitespace)
  {
    hide Delivered, Remaining, Split, TrimWhitespace;
    r := [];
    ghost var raw := [];
    var last, i, c := 0, 0, |str|;
    NothingSplit(str, s, trimWhitespace);
    while i <= c
      invariant last <= i <= c + 1
      invariant i == c + 1 ==> last == i
      invariant forall j :: last <= j < i && j < c ==> str[j] != s
      invariant raw + Remaining(str, last, s) == Split(str, s)
      invariant r == Delivered(raw, trimWhitespace)
    {
      if i == c || str[i] == s {
        var tmp := str[last..i];
        Advance(raw, Split(str, s), str, last, i, s);
        DeliveredAppend(raw, tmp, trimWhitespace);
        if trimWhitespace {
          r := r + [TrimWhitespace(tmp)];
        } else {
          r := r + [tmp];
        }
        raw := raw + [tmp];
        last := i + 1;
      }
      i := i + 1;
    }
    AllSplit(raw, Split(str, s), str, s);
  }

  method SplitString(str: string, c: char) returns (r: seq<string>)
    ensures r == Trimmed(Split(str, c))
  {
    r := SplitStringT(str, c, true);
  }

  /** Splitting a joined list of bare pieces gives the list back. */
  lemma SplitBarePieces(pieces: seq<string>, c: char)
    requires |pieces| >= 1
    requires forall i :: 0 <= i < |pieces| ==> c !in pieces[i] && Bare(pieces[i])
    ensures Trimmed(Split(Join(pieces, [c]), c)) == pieces
  {
    SplitOfJoin(pieces, c);
    forall i | 0 <= i < |pieces| ensures TrimWhitespace(pieces[i]) == pieces[i] {
      TrimKeepsBare(pieces[i]);
    }
  }

  lemma {:induction false} JoinAppends(parts: seq<string>, part: string, sep: string)
    requires parts != []
    ensures Join(parts + [part], sep) == Join(parts, sep) + sep + part
    decreases parts
  {
    var all := parts + [part];
    if |parts| == 1 {
      assert all[1..] == [part];
    } else {
      assert all[1..] == parts[1..] + [part];
      JoinAppends(parts[1..], part, sep);
    }
  }

  method JoinStringT(parts: seq<string>, sep: string) returns (result: string)
    ensures result == Join(parts, sep)
  {
    if parts == [] {
      return "";
    }
    result := parts[0];
    assert parts[..1] == [parts[0]];
    for i := 1 to |parts|
      invariant result == Join(parts[..i], sep)
    {
      JoinAppends(parts[..i], parts[i], sep);
      assert parts[..i + 1] == parts[..i] + [parts[i]];
      result := result + sep;
      result := result + parts[i];
    }
    assert parts[..|parts|] == parts;
  }
}
