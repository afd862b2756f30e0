// What is read out of a parsed path and query: the file name, the key-value
// pairs one at a time, and the port number.

module UrlQuery {
  import opened Numbers
  import opened Text
  import opened UrlParse
  import opened UrlTheorems

  predicate Inside(s: string, c: Component) { c.len <= 0 || (0 <= c.begin && c.End() <= |s|) }

  // ---- File name ----

  /** From the last slash before the last parameter semicolon, to that semicolon. */
  function FileNameIn(s: string, lo: nat, hi: nat): Component
    requires lo < hi <= |s|
  {
    var semicolon := LastIn(s, lo + 1, hi, {';'});
    var end := if lo < semicolon then semicolon else hi;
    MakeRange(LastIn(s, lo, end, SLASHES) + 1, end)
  }

  method ExtractFileName(spec: string, path: Component) returns (fileName: Component)
    requires Inside(spec, path)
    ensures fileName == if path.IsNonempty() then FileNameIn(spec, path.begin, path.End()) else NONE
  {
    if !path.IsNonempty() {
      return NONE;
    }
    var fileEnd := path.End();
    var i := path.End() - 1;
    while i > path.begin
      invariant path.begin <= i < path.End() && fileEnd == path.End()
      invariant LastIn(spec, path.begin + 1, i + 1, {';'}) == LastIn(spec, path.begin + 1, path.End(), {';'})
    {
      if spec[i] == ';' {
        fileEnd := i;
        break;
      }
      i := i - 1;
    }
    i := fileEnd - 1;
    while i >= path.begin
      invariant path.begin - 1 <= i < fileEnd
      invariant LastIn(spec, path.begin, i + 1, SLASHES) == LastIn(spec, path.begin, fileEnd, SLASHES)
    {
      if IsURLSlash(spec[i]) {
        return MakeRange(i + 1, fileEnd);
      }
      i := i - 1;
    }
    return MakeRange(path.begin, fileEnd);
  }

  // ---- Query pairs ----

  datatype KeyValue = KeyValue(key: Component, value: Component, next: nat)

  /** The first pair of [lo, hi) and where the rest begins. */
  function KeyValueIn(s: string, lo: nat, hi: nat): (r: KeyValue)
    requires lo < hi <= |s|
    ensures lo < r.next <= hi
  {
    var keyEnd := FirstIn(s, lo, hi, {'&', '='});
    var valueBegin := if keyEnd < hi && s[keyEnd] == '=' then keyEnd + 1 else keyEnd;
    var valueEnd := FirstIn(s, valueBegin, hi, {'&'});
    KeyValue(MakeRange(lo, keyEnd), MakeRange(valueBegin, valueEnd), if valueEnd < hi then valueEnd + 1 else hi)
  }

  method ExtractQueryKeyValue(spec: string, query0: Component, key0: Component, value0: Component)
    returns (found: bool, query: Component, key: Component, value: Component)
    requires Inside(spec, query0)
    ensures found == query0.IsNonempty() && query.End() == query0.End()
    ensures Inside(spec, query) && query.len <= query0.len
    ensures !found ==> (query, key, value) == (query0, key0, value0)
    ensures found ==>
      var r := KeyValueIn(spec, query0.begin, query0.End());
      key == r.key && value == r.value && query == MakeRange(r.next, query0.End())
  {
    if !query0.IsNonempty() {
      return false, query0, key0, value0;
    }
    var start := query0.begin;
    var cur, end := start, query0.End();
    var keyBegin := cur;
    while cur < end && spec[cur] != '&' && spec[cur] != '='
      invariant start <= cur <= end
      invariant FirstIn(spec, cur, end, {'&', '='}) == FirstIn(spec, start, end, {'&', '='})
    {
      cur := cur + 1;
    }
    key := Component(keyBegin, cur - keyBegin);
    if cur < end && spec[cur] == '=' {
      cur := cur + 1;
    }
    var valueBegin := cur;
    while cur < end && spec[cur] != '&'
      invariant valueBegin <= cur <= end
      invariant FirstIn(spec, cur, end, {'&'}) == FirstIn(spec, valueBegin, end, {'&'})
    {
      cur := cur + 1;
    }
    value := Component(valueBegin, cur - valueBegin);
    if cur < end && spec[cur] == '&' {
      cur := cur + 1;
    }
    query := MakeRange(cur, end);
    found := true;
  }

  /** Every pair the caller's loop sees over [lo, hi), as text. */
  function PairsIn(s: string, lo: nat, hi: nat): seq<(string, string)>
    requires lo <= hi <= |s|
    decreases hi - lo
  {
    if lo == hi then []
    else
      var r := KeyValueIn(s, lo, hi);
      [(TextOf(s, r.key), TextOf(s, r.value))] + PairsIn(s, r.next, hi)
  }

  /** A segment split at its first equals sign. */
  function SplitPair(segment: string): (string, string) {
    var k := FirstIn(segment, 0, |segment|, {'='});
    (segment[..k], if k < |segment| then segment[k + 1..] else "")
  }

  function SplitPairs(segments: seq<string>): seq<(string, string)> {
    if segments == [] then [] else [SplitPair(segments[0])] + SplitPairs(segments[1..])
  }

  /** The '&'-separated segments, without a final empty one. */
  function Segments(query: string): seq<string> { WithoutEmptyLast(Split(query, '&')) }

  function WithoutEmptyLast(pieces: seq<string>): seq<string>
    requires pieces != []
  {
    if pieces[|pieces| - 1] == "" then pieces[..|pieces| - 1] else pieces
  }

  /** The first pair is the first segment, split. */
  lemma FirstPair(s: string, lo: nat, hi: nat)
    requires lo < hi <= |s|
    ensures var r, k := KeyValueIn(s, lo, hi), FirstIn(s, lo, hi, {'&'});
            && (TextOf(s, r.key), TextOf(s, r.value)) == SplitPair(s[lo..k])
            && r.next == if k < hi then k + 1 else hi
  {
    var k := FirstIn(s, lo, hi, {'&'});
    var keyEnd := FirstIn(s, lo, hi, {'&', '='});
    assert keyEnd <= k;
    var segment := s[lo..k];
    FirstInSegment(segment, 0, keyEnd - lo, |segment|, {'='}, s[lo..keyEnd]);
    if keyEnd < hi && s[keyEnd] == '=' {
      assert FirstIn(s, keyEnd + 1, hi, {'&'}) == k;
      assert segment[keyEnd - lo + 1..] == s[keyEnd + 1..k];
    } else {
      assert keyEnd == k;
    }
    assert segment[..keyEnd - lo] == s[lo..keyEnd];
  }

  lemma OnlySegment(q: string)
    requires q != "" && FirstIn(q, 0, |q|, {'&'}) == |q|
    ensures Segments(q) == [q]
  {
  }

  lemma FirstOfSegments(q: string, k: nat)
    requires k < |q| && FirstIn(q, 0, |q|, {'&'}) == k
    ensures Segments(q) == [q[..k]] + Segments(q[k + 1..])
  {
    assert Split(q, '&') == [q[..k]] + Split(q[k + 1..], '&');
    WithoutEmptyLastOfCons(q[..k], Split(q[k + 1..], '&'));
  }

  lemma FirstSegment(q: string)
    requires q != ""
    ensures var k := FirstIn(q, 0, |q|, {'&'});
            Segments(q) == if k == |q| then [q] else [q[..k]] + Segments(q[k + 1..])
  {
    hide Segments;
    var k := FirstIn(q, 0, |q|, {'&'});
    if k == |q| {
      OnlySegment(q);
    } else {
      FirstOfSegments(q, k);
    }
  }

  lemma WithoutEmptyLastOfCons(piece: string, pieces: seq<string>)
    requires pieces != []
    ensures WithoutEmptyLast([piece] + pieces) == [piece] + WithoutEmptyLast(pieces)
  {
  }

  lemma SplitPairsOfCons(segment: string, segments: seq<string>)
    ensures SplitPairs([segment] + segments) == [SplitPair(segment)] + SplitPairs(segments)
  {
  }

  lemma FirstInSlice(s: string, lo: nat, hi: nat, stops: set<char>)
    requires lo <= hi <= |s|
    ensures var k := FirstIn(s, lo, hi, stops);
            && FirstIn(s[lo..hi], 0, hi - lo, stops) == k - lo
            && s[lo..hi][..k - lo] == s[lo..k]
            && (k < hi ==> s[lo..hi][k - lo + 1..] == s[k + 1..hi])
  {
    var k := FirstIn(s, lo, hi, stops);
    FirstInSegment(s[lo..hi], 0, k - lo, hi - lo, stops, s[lo..k]);
  }

  /** The segments of a slice, by absolute offsets. */
  lemma FirstSegmentIn(s: string, lo: nat, hi: nat)
    requires lo < hi <= |s|
    ensures var k := FirstIn(s, lo, hi, {'&'});
            Segments(s[lo..hi]) == [s[lo..k]] + if k == hi then [] else Segments(s[k + 1..hi])
  {
    hide Segments;
    FirstSegment(s[lo..hi]);
    FirstInSlice(s, lo, hi, {'&'});
  }

  lemma FirstPairIn(s: string, lo: nat, hi: nat)
    requires lo < hi <= |s|
    ensures var k := FirstIn(s, lo, hi, {'&'});
            PairsIn(s, lo, hi) == [SplitPair(s[lo..k])] + if k == hi then [] else PairsIn(s, k + 1, hi)
  {
    FirstPair(s, lo, hi);
    assert PairsIn(s, hi, hi) == [];
  }

  lemma NoSegments()
    ensures Segments("") == []
  {
  }

  /** Iterating over a query yields exactly its segments, each split at its
      first equals sign, with only a final empty segment dropped. */
  lemma {:induction false} PairsAreSegments(s: string, lo: nat, hi: nat)
    requires lo <= hi <= |s|
    ensures PairsIn(s, lo, hi) == SplitPairs(Segments(s[lo..hi]))
    decreases hi - lo
  {
    if lo == hi {
      NoSegments();
    } else {
      var k := FirstIn(s, lo, hi, {'&'});
      var rest := if k == hi then [] else Segments(s[k + 1..hi]);
      FirstPairIn(s, lo, hi);
      FirstSegmentIn(s, lo, hi);
      if k < hi {
        PairsAreSegments(s, k + 1, hi);
      }
      SplitPairsOfCons(s[lo..k], rest);
    }
  }

  // ---- Port number ----

  const PORT_UNSPECIFIED := -1
  const PORT_INVALID := -2

  /** Leading zeros change nothing, and at least one other digit beyond five is too big. */
  lemma {:induction false} DecimalLeads(s: string)
    requires AllDigits(s) && s != ""
    ensures s[0] == '0' ==> Decimal(s) == Decimal(s[1..])
    ensures s[0] != '0' && |s| > 5 ==> Decimal(s) > 65535
    ensures s[0] != '0' && |s| >= 1 ==> Decimal(s) >= 1
  {
    if |s| == 1 {
      assert s[..0] == "" && s[1..] == "";
    } else {
      var t := s[..|s| - 1];
      DecimalLeads(t);
      assert s[1..][..|s| - 2] == t[1..];
      if |s| == 6 && s[0] != '0' {
        FiveDigits(t);
      }
    }
  }

  lemma FiveDigits(t: string)
    requires |t| == 5 && AllDigits(t) && t[0] != '0'
    ensures Decimal(t) >= 10000
  {
    var t4, t3, t2, t1 := t[..4], t[..3], t[..2], t[..1];
    assert t1[..0] == "" && t2[..1] == t1 && t3[..2] == t2 && t4[..3] == t3;
    assert Decimal(t1) >= 1;
    assert Decimal(t2) >= 10;
    assert Decimal(t3) >= 100;
  }

  method ParsePort(spec: string, component: Component) returns (r: int)
    requires Inside(spec, component)
    ensures !component.IsNonempty() ==> r == PORT_UNSPECIFIED
    ensures component.IsNonempty() ==>
      var text := spec[component.begin..component.End()];
      r == if AllDigits(text) && Decimal(text) <= 65535 then Decimal(text) else PORT_INVALID
  {
    var kMaxDigits := 5;
    if !component.IsNonempty() {
      return PORT_UNSPECIFIED;
    }
    ghost var text := spec[component.begin..component.End()];
    var digitsComp := Component(component.End(), 0);
    var i := 0;
    while i < component.len
      invariant 0 <= i <= component.len && digitsComp == Component(component.End(), 0)
      invariant forall j :: 0 <= j < i ==> text[j] == '0'
      invariant AllDigits(text) ==> AllDigits(text[i..]) && Decimal(text) == Decimal(text[i..])
      invariant AllDigits(text[i..]) ==> AllDigits(text)
    {
      if spec[component.begin + i] != '0' {
        digitsComp := MakeRange(component.begin + i, component.End());
        break;
      }
      if AllDigits(text[i..]) {
        DecimalLeads(text[i..]);
        assert text[i..][1..] == text[i + 1..];
      }
      i := i + 1;
    }
    if digitsComp.len == 0 {
      assert i == component.len && text[i..] == "";
      return 0;
    }
    ghost var digits := text[i..];
    if AllDigits(digits) {
      DecimalLeads(digits);
    }
    if digitsComp.len > kMaxDigits {
      return PORT_INVALID;
    }
    var port := 0;
    var k := 0;
    while k < digitsComp.len
      invariant 0 <= k <= digitsComp.len
      invariant AllDigits(digits[0..k]) && port == Decimal(digits[0..k])
    {
      var ch := spec[digitsComp.begin + k];
      assert ch == digits[k];
      if !IsDigit(ch) {
        return PORT_INVALID;
      }
      NextDigit(digits, 0, k);
      port := port * 10 + (ch - '0') as nat;
      k := k + 1;
    }
    assert digits[0..k] == digits;
    if port > 65535 {
      return PORT_INVALID;
    }
    return port;
  }
}
