// Searches over a slice of a string, as the specification of every scanning
// loop in this project, and the facts that pin their answers down.

module Text {

  /** No character of s is in stops. */
  ghost predicate Free(s: string, stops: set<char>) {
    forall c {:trigger c in s} :: c in s ==> c !in stops
  }

  /** The first index in [lo, hi) that holds a stop character, hi if none does. */
  function FirstIn(s: string, lo: nat, hi: nat, stops: set<char>): (i: nat)
    requires lo <= hi <= |s|
    ensures lo <= i <= hi
    ensures forall j :: lo <= j < i ==> s[j] !in stops
    ensures i < hi ==> s[i] in stops
    decreases hi - lo
  {
    if lo == hi || s[lo] in stops then lo else FirstIn(s, lo + 1, hi, stops)
  }

  /** The last index in [lo, hi) that holds a stop character, lo - 1 if none does. */
  function LastIn(s: string, lo: nat, hi: nat, stops: set<char>): (i: int)
    requires lo <= hi <= |s|
    ensures lo - 1 <= i < hi
    ensures forall j :: i < j < hi ==> s[j] !in stops
    ensures lo <= i ==> s[i] in stops
    decreases hi - lo
  {
    if lo == hi then lo - 1
    else if s[hi - 1] in stops then hi - 1
    else LastIn(s, lo, hi - 1, stops)
  }

  /** A stop-free segment that ends at a stop (or at hi) is what FirstIn finds. */
  lemma FirstInSegment(s: string, lo: nat, k: nat, hi: nat, stops: set<char>, segment: string)
    requires lo <= k <= hi <= |s| && s[lo..k] == segment && Free(segment, stops)
    requires k < hi ==> s[k] in stops
    ensures FirstIn(s, lo, hi, stops) == k
  {
    forall j | lo <= j < k ensures s[j] !in stops {
      assert s[j] == segment[j - lo] && s[j] in segment;
    }
  }

  /** A stop followed by a stop-free segment is what LastIn finds. */
  lemma LastInSegment(s: string, lo: nat, k: int, hi: nat, stops: set<char>, segment: string)
    requires lo - 1 <= k < hi <= |s| && s[k + 1..hi] == segment && Free(segment, stops)
    requires lo <= k ==> s[k] in stops
    requires lo <= hi
    ensures LastIn(s, lo, hi, stops) == k
  {
    forall j | k < j < hi ensures s[j] !in stops {
      assert s[j] == segment[j - k - 1] && s[j] in segment;
    }
  }

  /** Cutting a slice at an inner point loses nothing. */
  lemma Cut(s: string, lo: nat, mid: nat, hi: nat)
    requires lo <= mid <= hi <= |s|
    ensures s[lo..hi] == s[lo..mid] + s[mid..hi]
  {
  }

  /** The pieces between separators, empty ones included; never an empty list. */
  function Split(s: string, separator: char): (pieces: seq<string>)
    ensures |pieces| >= 1
    decreases |s|
  {
    var k := FirstIn(s, 0, |s|, {separator});
    if k == |s| then [s] else [s[..k]] + Split(s[k + 1..], separator)
  }

  /** The pieces with the separator between neighbours. */
  function Join(pieces: seq<string>, separator: string): string {
    if |pieces| == 0 then ""
    else if |pieces| == 1 then pieces[0]
    else pieces[0] + separator + Join(pieces[1..], separator)
  }

  /** Joining undoes splitting, and no piece holds the separator. */
  lemma {:induction false} JoinOfSplit(s: string, separator: char)
    ensures Join(Split(s, separator), [separator]) == s
    ensures forall i :: 0 <= i < |Split(s, separator)| ==> separator !in Split(s, separator)[i]
    decreases |s|
  {
    var k := FirstIn(s, 0, |s|, {separator});
    if k < |s| {
      JoinOfSplit(s[k + 1..], separator);
      assert s == s[..k] + [separator] + s[k + 1..];
    }
  }

  /** Splitting undoes joining when no piece holds the separator. */
  lemma {:induction false} SplitOfJoin(pieces: seq<string>, separator: char)
    requires |pieces| >= 1
    requires forall i :: 0 <= i < |pieces| ==> separator !in pieces[i]
    ensures Split(Join(pieces, [separator]), separator) == pieces
  {
    var head, s := pieces[0], Join(pieces, [separator]);
    if |pieces| == 1 {
      FirstInSegment(s, 0, |s|, |s|, {separator}, head);
    } else {
      FirstInSegment(s, 0, |head|, |s|, {separator}, head);
      assert s[|head| + 1..] == Join(pieces[1..], [separator]);
      SplitOfJoin(pieces[1..], separator);
    }
  }
}
