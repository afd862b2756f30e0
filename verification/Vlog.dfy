// Verbosity by source file: the --vmodule switch, read and applied.

module Vlog {
  import opened Glob
  import opened Numbers
  import opened Options
  import opened Strings
  import opened Text

  // ---- Searches of string_piece.cc ----

  method BuildLookupTable(charactersWanted: string) returns (table: set<char>)
    ensures forall c :: c in table <==> c in charactersWanted
  {
    table := {};
    for i := 0 to |charactersWanted|
      invariant forall c :: c in table <==> c in charactersWanted[..i]
    {
      table := table + {charactersWanted[i]};
    }
    assert charactersWanted[..|charactersWanted|] == charactersWanted;
  }

  function Chars(s: string): set<char> {
    set c | c in s
  }

  /** StringPiece::npos is -1 here, and no bound on the search is |self|. */
  method FindLastOf(self: string, s: string, pos: nat) returns (r: int)
    ensures r == if |self| == 0 then -1 else LastIn(self, 0, (if pos < |self| then pos else |self| - 1) + 1, Chars(s))
  {
    if |self| == 0 || |s| == 0 {
      if |self| > 0 {
        NoStops(self, 0, if pos < |self| then pos + 1 else |self|, Chars(s));
      }
      return -1;
    }
    var lookup := BuildLookupTable(s);
    assert lookup == Chars(s);
    r := if pos < |self| then pos else |self| - 1;
    ghost var hi := r + 1;
    while r >= 0
      invariant -1 <= r < hi <= |self|
      invariant LastIn(self, 0, r + 1, lookup) == LastIn(self, 0, hi, lookup)
    {
      if self[r] in lookup {
        return;
      }
      r := r - 1;
    }
  }

  lemma {:induction false} NoStops(s: string, lo: nat, hi: nat, stops: set<char>)
    requires lo <= hi <= |s| && stops == {}
    ensures LastIn(s, lo, hi, stops) == lo - 1
    decreases hi
  {
  }

  method RFind(self: string, c: char, pos: nat) returns (r: int)
    ensures r == if |self| == 0 then -1 else LastIn(self, 0, (if pos < |self| then pos else |self| - 1) + 1, {c})
  {
    if |self| == 0 {
      return -1;
    }
    r := if pos < |self| then pos else |self| - 1;
    ghost var hi := r + 1;
    while r >= 0
      invariant -1 <= r < hi <= |self|
      invariant LastIn(self, 0, r + 1, {c}) == LastIn(self, 0, hi, {c})
    {
      if self[r] == c {
        return;
      }
      r := r - 1;
    }
  }

  // ---- The module of a file ----

  const SLASHES := {'\\', '/'}

  /** The text after the last slash. */
  function BaseName(file: string): string {
    file[LastIn(file, 0, |file|, SLASHES) + 1..]
  }

  /** Without the last dot and what follows it. */
  function Stem(base: string): string {
    var dot := LastIn(base, 0, |base|, {'.'});
    if dot == -1 then base else base[..dot]
  }

  function WithoutInl(stem: string): string {
    if |stem| >= 4 && stem[|stem| - 4..] == "-inl" then stem[..|stem| - 4] else stem
  }

  /** Basename without extension and without one "-inl". */
  function ModuleOf(file: string): string {
    WithoutInl(Stem(BaseName(file)))
  }

  method GetModule(file: string) returns (m: string)
    ensures m == ModuleOf(file)
  {
    hide LastIn;
    m := file;
    var lastSlashPos := FindLastOf(m, "\\/", |m|);
    assert Chars("\\/") == SLASHES;
    if lastSlashPos != -1 {
      m := m[lastSlashPos + 1..];
    }
    assert m == BaseName(file);
    var extensionStart := RFind(m, '.', |m|);
    m := if extensionStart == -1 then m else m[0..extensionStart];
    assert m == Stem(BaseName(file));
    if |m| >= 4 && m[|m| - 4..] == "-inl" {
      m := m[..|m| - 4];
    }
  }

  lemma BaseOfPath(directory: string, base: string)
    requires directory == "" || directory[|directory| - 1] in SLASHES
    requires Free(base, SLASHES)
    ensures BaseName(directory + base) == base
  {
    var file := directory + base;
    assert file[|directory|..|file|] == base;
    LastInSegment(file, 0, |directory| - 1, |file|, SLASHES, base);
  }

  /** The extension with its dot, if there is one. */
  function Dotted(extension: Option<string>): string {
    if extension.Some? then "." + extension.value else ""
  }

  lemma StemOfBase(stem: string, extension: Option<string>)
    requires if extension.Some? then Free(extension.value, {'.'}) else Free(stem, {'.'})
    ensures Stem(stem + Dotted(extension)) == stem
  {
    var base := stem + Dotted(extension);
    if extension.Some? {
      assert base[|stem| + 1..|base|] == extension.value;
      LastInSegment(base, 0, |stem|, |base|, {'.'}, extension.value);
    } else {
      assert base == stem && base[0..|base|] == stem;
      LastInSegment(base, 0, -1, |base|, {'.'}, stem);
    }
  }

  function InlSuffix(inl: bool): string {
    if inl then "-inl" else ""
  }

  lemma NameOfStem(name: string, inl: bool)
    requires inl || |name| < 4 || name[|name| - 4..] != "-inl"
    ensures WithoutInl(name + InlSuffix(inl)) == name
  {
  }

  /** A path of directory, name and maybe extension has the name as its module, with or
      without the suffix for inline headers, of which one is taken off. */
  lemma ModuleOfPath(directory: string, name: string, extension: Option<string>, inl: bool)
    requires directory == "" || directory[|directory| - 1] in SLASHES
    requires Free(name, SLASHES) && (inl || |name| < 4 || name[|name| - 4..] != "-inl")
    requires if extension.Some? then Free(extension.value, SLASHES + {'.'}) else Free(name, {'.'})
    ensures ModuleOf(directory + ((name + InlSuffix(inl)) + Dotted(extension))) == name
  {
    BaseOfPath(directory, (name + InlSuffix(inl)) + Dotted(extension));
    StemOfBase(name + InlSuffix(inl), extension);
    NameOfStem(name, inl);
  }

  // ---- The switch ----

  datatype VmodulePattern = VmodulePattern(pattern: string, vlogLevel: int, matchFile: bool)

  /** A pattern with a slash is for the whole path. */
  function PatternOf(pattern: string, level: int): VmodulePattern {
    VmodulePattern(pattern, level, '\\' in pattern || '/' in pattern)
  }

  /** A line cut at its first delimiter, the delimiters after it skipped. Without a
      delimiter there is no key, and without anything after it no value. */
  datatype KeyValue = KeyValue(found: bool, key: string, value: string)

  function KeyValueOf(line: string, delimiter: char): KeyValue {
    var k := FirstIn(line, 0, |line|, {delimiter});
    if k == |line| then KeyValue(false, "", "")
    else
      var v := FirstNotOf(line, k, {delimiter});
      KeyValue(v < |line|, line[..k], line[v..])
  }

  ghost predicate Run(s: string, c: char) {
    s != "" && forall i :: 0 <= i < |s| ==> s[i] == c
  }

  /** A key, a run of delimiters, and a value that begins with something else. */
  lemma KeyAndValue(key: string, run: string, value: string, delimiter: char)
    requires delimiter !in key && Run(run, delimiter) && (value != "" ==> value[0] != delimiter)
    ensures KeyValueOf(key + (run + value), delimiter) == KeyValue(value != "", key, value)
  {
    var line, k := key + (run + value), |key|;
    var v := k + |run|;
    assert line[0..k] == line[..k] == key && line[k] == run[0];
    FirstInSegment(line, 0, k, |line|, {delimiter}, key);
    forall i | k <= i < v ensures line[i] == delimiter {
      assert line[i] == run[i - k];
    }
    assert line[v..] == value;
    assert value != "" ==> line[v] == value[0];
    assert FirstNotOf(line, k, {delimiter}) == v;
  }

  lemma NoKeyValue(line: string, delimiter: char)
    requires delimiter !in line
    ensures KeyValueOf(line, delimiter) == KeyValue(false, "", "")
  {
    assert line[0..|line|] == line;
    FirstInSegment(line, 0, |line|, |line|, {delimiter}, line);
  }

  method SplitStringIntoKeyValues(line: string, delimiter: char)
    returns (found: bool, key: string, values: seq<string>)
    ensures KeyValueOf(line, delimiter) == KeyValue(found, key, if values == [] then "" else values[0])
    ensures |values| == if found then 1 else 0
  {
    key, values := "", [];
    var endKeyPos := FirstIn(line, 0, |line|, {delimiter});
    if endKeyPos == |line| {
      return false, key, values;
    }
    key := line[0..endKeyPos];
    var beginValuesPos := FirstNotOf(line, endKeyPos, {delimiter});
    if beginValuesPos == |line| {
      return false, key, values;
    }
    values := values + [line[beginValuesPos..]];
    return true, key, values;
  }

  /** The pairs of the pieces that are not empty. */
  function PairsOf(pieces: seq<string>, delimiter: char): seq<(string, string)> {
    if pieces == [] then []
    else if pieces[0] == "" then PairsOf(pieces[1..], delimiter)
    else
      var kv := KeyValueOf(pieces[0], delimiter);
      [(kv.key, kv.value)] + PairsOf(pieces[1..], delimiter)
  }

  method SplitStringIntoKeyValuePairs(line: string, delimiter: char, pairDelimiter: char)
    returns (success: bool, kvPairs: seq<(string, string)>)
    ensures kvPairs == PairsOf(Trimmed(Split(line, pairDelimiter)), delimiter)
    ensures success <==> forall piece :: piece in Trimmed(Split(line, pairDelimiter)) ==>
      piece == "" || KeyValueOf(piece, delimiter).found
  {
    var pairs := SplitString(line, pairDelimiter);
    success, kvPairs := true, [];
    assert pairs[0..] == pairs;
    for i := 0 to |pairs|
      invariant kvPairs + PairsOf(pairs[i..], delimiter) == PairsOf(pairs, delimiter)
      invariant success <==> forall j :: 0 <= j < i ==> pairs[j] == "" || KeyValueOf(pairs[j], delimiter).found
    {
      ghost var done := kvPairs;
      assert pairs[i..][1..] == pairs[i + 1..];
      if pairs[i] == "" {
        continue;
      }
      var found, key, value := SplitStringIntoKeyValues(pairs[i], delimiter);
      if !found {
        success := false;
      }
      var pair := (key, if value == [] then "" else value[0]);
      RegroupPairs(done, pair, PairsOf(pairs[i + 1..], delimiter));
      kvPairs := kvPairs + [pair];
    }
    assert pairs[|pairs|..] == [];
  }

  lemma RegroupPairs(done: seq<(string, string)>, pair: (string, string), rest: seq<(string, string)>)
    ensures done + ([pair] + rest) == (done + [pair]) + rest
  {
  }

  /** The patterns of a --vmodule switch, in order. */
  function PatternsOf(pairs: seq<(string, string)>): (r: seq<VmodulePattern>)
    ensures |r| == |pairs|
    ensures forall i :: 0 <= i < |r| ==> r[i] == PatternOf(pairs[i].0, Atoi(pairs[i].1))
  {
    seq(|pairs|, i requires 0 <= i < |pairs| => PatternOf(pairs[i].0, Atoi(pairs[i].1)))
  }

  lemma NextPattern(pairs: seq<(string, string)>, i: nat)
    requires i < |pairs|
    ensures PatternsOf(pairs)[..i + 1] == PatternsOf(pairs)[..i] + [PatternOf(pairs[i].0, Atoi(pairs[i].1))]
  {
  }

  function Patterns(vmoduleSwitch: string): seq<VmodulePattern> {
    PatternsOf(PairsOf(Trimmed(Split(vmoduleSwitch, ',')), '='))
  }

  // ---- Levels ----

  /** The shared minimum log level, the negative of the default verbosity. */
  class MinLogLevel {
    var value: int

    constructor (value: int)
      ensures this.value == value
    {
      this.value := value;
    }
  }

  ghost predicate Matches(p: VmodulePattern, file: string) {
    InLanguage(if p.matchFile then file else ModuleOf(file), p.pattern)
  }

  /** The level of the first pattern that matches the file, or the fallback. */
  ghost function LevelFor(patterns: seq<VmodulePattern>, file: string, fallback: int): int {
    if patterns == [] then fallback
    else if Matches(patterns[0], file) then patterns[0].vlogLevel
    else LevelFor(patterns[1..], file, fallback)
  }

  lemma {:induction false} LevelIsFirstMatch(patterns: seq<VmodulePattern>, file: string, fallback: int, k: nat)
    requires k <= |patterns| && (forall j :: 0 <= j < k ==> !Matches(patterns[j], file))
    requires k < |patterns| ==> Matches(patterns[k], file)
    ensures LevelFor(patterns, file, fallback) == if k < |patterns| then patterns[k].vlogLevel else fallback
    decreases patterns
  {
    if k > 0 {
      assert !Matches(patterns[0], file);
      LevelIsFirstMatch(patterns[1..], file, fallback, k - 1);
    }
  }

  class VlogInfo {
    var vmoduleLevels: seq<VmodulePattern>
    const minLogLevel: MinLogLevel

    constructor (vSwitch: string, vmoduleSwitch: string, minLogLevel: MinLogLevel)
      modifies minLogLevel
      ensures this.minLogLevel == minLogLevel && vmoduleLevels == Patterns(vmoduleSwitch)
      ensures minLogLevel.value == if vSwitch == "" then old(minLogLevel.value) else -Atoi(vSwitch)
    {
      this.minLogLevel := minLogLevel;
      vmoduleLevels := [];
      new;
      if vSwitch != "" {
        var vlogLevel := Atoi(vSwitch);
        SetMaxVlogLevel(vlogLevel);
      }
      var success, kvPairs := SplitStringIntoKeyValuePairs(vmoduleSwitch, '=', ',');
      for i := 0 to |kvPairs|
        invariant vmoduleLevels == PatternsOf(kvPairs)[..i]
        invariant minLogLevel.value == if vSwitch == "" then old(minLogLevel.value) else -Atoi(vSwitch)
      {
        var pattern := PatternOf(kvPairs[i].0, Atoi(kvPairs[i].1));
        NextPattern(kvPairs, i);
        vmoduleLevels := vmoduleLevels + [pattern];
      }
    }

    method SetMaxVlogLevel(level: int)
      modifies minLogLevel
      ensures minLogLevel.value == -level
    {
      minLogLevel.value := -level;
    }

    method GetMaxVlogLevel() returns (level: int)
      ensures level == -minLogLevel.value
    {
      level := -minLogLevel.value;
    }

    method GetVlogLevel(file: string) returns (level: int)
      ensures level == LevelFor(vmoduleLevels, file, -minLogLevel.value)
    {
      hide InLanguage, ModuleOf, LevelFor;
      if vmoduleLevels != [] {
        var m := GetModule(file);
        for i := 0 to |vmoduleLevels|
          invariant forall j :: 0 <= j < i ==> !Matches(vmoduleLevels[j], file)
        {
          var p := vmoduleLevels[i];
          var target := if p.matchFile then file else m;
          var matches := MatchVlogPattern(target, p.pattern);
          if matches {
            LevelIsFirstMatch(vmoduleLevels, file, -minLogLevel.value, i);
            return p.vlogLevel;
          }
        }
      }
      LevelIsFirstMatch(vmoduleLevels, file, -minLogLevel.value, |vmoduleLevels|);
      level := GetMaxVlogLevel();
    }
  }

  // ---- Printing the switch ----

  datatype Setting = Setting(pattern: string, level: int)

  /** A pattern that the switch can carry: no separator in it, no blank before it. */
  ghost predicate WellFormed(s: Setting) {
    Free(s.pattern, {',', '='}) && (s.pattern != "" ==> s.pattern[0] !in WHITESPACE)
  }

  function PrintSetting(s: Setting): string {
    s.pattern + ("=" + PrintInt(s.level))
  }

  function PrintSettings(settings: seq<Setting>): (r: seq<string>)
    ensures |r| == |settings| && forall i :: 0 <= i < |r| ==> r[i] == PrintSetting(settings[i])
  {
    seq(|settings|, i requires 0 <= i < |settings| => PrintSetting(settings[i]))
  }

  function PatternsFor(settings: seq<Setting>): (r: seq<VmodulePattern>)
    ensures |r| == |settings| && forall i :: 0 <= i < |r| ==> r[i] == PatternOf(settings[i].pattern, settings[i].level)
  {
    seq(|settings|, i requires 0 <= i < |settings| => PatternOf(settings[i].pattern, settings[i].level))
  }

  lemma PlainNumber(n: int, c: char)
    requires c in PrintInt(n)
    ensures c !in WHITESPACE && c != ',' && c != '='
  {
  }

  lemma SettingIsBare(s: Setting)
    requires WellFormed(s)
    ensures PrintSetting(s) != "" && Bare(PrintSetting(s)) && ',' !in PrintSetting(s)
  {
  }

  lemma SettingReadsBack(s: Setting)
    requires WellFormed(s)
    ensures KeyValueOf(PrintSetting(s), '=') == KeyValue(true, s.pattern, PrintInt(s.level))
  {
    var number, line, k := PrintInt(s.level), PrintSetting(s), |s.pattern|;
    PrintIntIsPlain(s.level);
    PlainNumber(s.level, number[0]);
    assert line == s.pattern + "=" + number;
    assert line[0..k] == s.pattern;
    FirstInSegment(line, 0, k, |line|, {'='}, s.pattern);
    assert line[k + 1] == number[0];
    assert line[k + 1..] == number;
    assert FirstNotOf(line, k + 1, {'='}) == k + 1;
    assert FirstNotOf(line, k, {'='}) == k + 1;
  }

  lemma FirstPairReadsBack(s: Setting, pieces: seq<string>)
    requires WellFormed(s) && pieces != [] && pieces[0] == PrintSetting(s)
    ensures PairsOf(pieces, '=') == [(s.pattern, PrintInt(s.level))] + PairsOf(pieces[1..], '=')
  {
    SettingIsBare(s);
    SettingReadsBack(s);
  }

  function PairsFor(settings: seq<Setting>): (r: seq<(string, string)>)
    ensures |r| == |settings|
    ensures forall i :: 0 <= i < |r| ==> r[i] == (settings[i].pattern, PrintInt(settings[i].level))
  {
    seq(|settings|, i requires 0 <= i < |settings| => (settings[i].pattern, PrintInt(settings[i].level)))
  }

  lemma PrintsRest(settings: seq<Setting>)
    requires settings != []
    ensures PrintSettings(settings)[1..] == PrintSettings(settings[1..])
  {
  }

  lemma PairsRest(settings: seq<Setting>)
    requires settings != []
    ensures PairsFor(settings) == [(settings[0].pattern, PrintInt(settings[0].level))] + PairsFor(settings[1..])
  {
  }

  lemma {:induction false} PairsReadBack(settings: seq<Setting>)
    requires forall i :: 0 <= i < |settings| ==> WellFormed(settings[i])
    ensures PairsOf(PrintSettings(settings), '=') == PairsFor(settings)
    decreases settings
  {
    if settings != [] {
      FirstPairReadsBack(settings[0], PrintSettings(settings));
      PrintsRest(settings);
      PairsReadBack(settings[1..]);
      PairsRest(settings);
    }
  }

  lemma PrintedSplitsBack(settings: seq<Setting>)
    requires settings != [] && forall i :: 0 <= i < |settings| ==> WellFormed(settings[i])
    ensures Trimmed(Split(Join(PrintSettings(settings), ","), ',')) == PrintSettings(settings)
  {
    var pieces := PrintSettings(settings);
    forall i | 0 <= i < |pieces| ensures ',' !in pieces[i] && Bare(pieces[i]) {
      SettingIsBare(settings[i]);
    }
    SplitBarePieces(pieces, ',');
  }

  /** Every printed list of settings is read back, in order. */
  lemma SettingsReadBack(settings: seq<Setting>)
    requires forall i :: 0 <= i < |settings| ==> WellFormed(settings[i])
    ensures Patterns(Join(PrintSettings(settings), ",")) == PatternsFor(settings)
  {
    if settings == [] {
      NothingToRead();
    } else {
      PrintedSplitsBack(settings);
      PairsReadBack(settings);
      AllAtoi(settings, PairsFor(settings));
    }
  }

  lemma NothingToRead()
    ensures Patterns("") == []
  {
  }

  lemma AllAtoi(settings: seq<Setting>, pairs: seq<(string, string)>)
    requires |pairs| == |settings|
    requires forall i :: 0 <= i < |settings| ==> pairs[i] == (settings[i].pattern, PrintInt(settings[i].level))
    ensures PatternsOf(pairs) == PatternsFor(settings)
  {
    forall i | 0 <= i < |settings| ensures Atoi(pairs[i].1) == settings[i].level {
      AtoiOfPrintInt(settings[i].level);
    }
  }

  /** The first listed setting whose pattern matches gives the level: against the
      whole path when the pattern has a slash, else against the module. */
  ghost predicate Applies(s: Setting, file: string) {
    InLanguage(if '\\' in s.pattern || '/' in s.pattern then file else ModuleOf(file), s.pattern)
  }

  lemma FirstSettingWins(settings: seq<Setting>, file: string, fallback: int, k: nat)
    requires forall i :: 0 <= i < |settings| ==> WellFormed(settings[i])
    requires k <= |settings| && (forall j :: 0 <= j < k ==> !Applies(settings[j], file))
    requires k < |settings| ==> Applies(settings[k], file)
    ensures LevelFor(Patterns(Join(PrintSettings(settings), ",")), file, fallback)
         == if k < |settings| then settings[k].level else fallback
  {
    SettingsReadBack(settings);
    forall j | 0 <= j < k ensures !Matches(PatternsFor(settings)[j], file) {
      assert !Applies(settings[j], file);
    }
    LevelIsFirstMatch(PatternsFor(settings), file, fallback, k);
  }
}
