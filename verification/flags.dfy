/** Resource flags pulled out of the free-text ExtraParams string by the
    three regular-expression searches of the converter:
      `--cpus=([0-9.]+)`, `--cpu-shares=([0-9]+)` and, ignoring case,
      `--memory=([0-9]+[kmg]?)`.
    Each is written as a left-to-right scanner, and its contract states the
    `re.search` semantics: the leftmost position where the pattern matches,
    with the greedy capture group. */
module Flags {
  import opened Wrappers
  import opened Text

  datatype CharClass = Digits | DigitsOrDot

  predicate InClass(c: char, cls: CharClass) {
    IsDigit(c) || (cls == DigitsOrDot && c == '.')
  }

  /** A literal `--flag=` (optionally matched ignoring ASCII case) followed
      by a capture group of one or more characters of `body`. */
  datatype Pattern = Pattern(flag: string, ignoreCase: bool, body: CharClass)

  const CpusPattern := Pattern("--cpus=", false, DigitsOrDot)
  const CpuSharesPattern := Pattern("--cpu-shares=", false, Digits)
  const MemoryPattern := Pattern("--memory=", true, Digits)

  /** One literal character under the pattern's case rule. The only literal
      matched ignoring case is `--memory=`, whose letters m, e, o, r, y have
      no case partner outside ASCII, so ASCII folding is Python's folding. */
  predicate CharMatches(c: char, p: char, ignoreCase: bool) {
    if ignoreCase then LowerChar(c) == LowerChar(p) else c == p
  }

  predicate FlagAt(s: string, i: int, p: Pattern) {
    && 0 <= i
    && i + |p.flag| <= |s|
    && forall j :: 0 <= j < |p.flag| ==> CharMatches(s[i + j], p.flag[j], p.ignoreCase)
  }

  /** The pattern matches at `i`: the flag is there and at least one
      character of the capture class follows it. */
  predicate MatchesAt(s: string, i: int, p: Pattern) {
    FlagAt(s, i, p) && i + |p.flag| < |s| && InClass(s[i + |p.flag|], p.body)
  }

  /** `i` is where `re.search` finds the pattern: it matches there and at no
      earlier position. */
  predicate LeftmostMatch(s: string, i: int, p: Pattern) {
    MatchesAt(s, i, p) && forall j :: 0 <= j < i ==> !MatchesAt(s, j, p)
  }

  /** `v` is the greedy run of `cls` characters starting at `start`. */
  predicate MaximalRun(s: string, start: int, v: string, cls: CharClass) {
    && 0 <= start
    && start + |v| <= |s|
    && s[start..start + |v|] == v
    && |v| > 0
    && (forall j :: 0 <= j < |v| ==> InClass(v[j], cls))
    && (start + |v| == |s| || !InClass(s[start + |v|], cls))
  }

  function SearchFrom(s: string, p: Pattern, k: nat): (r: Option<nat>)
    requires k <= |s|
    ensures r.Some? ==> k <= r.value < |s| && MatchesAt(s, r.value, p)
    ensures r.Some? ==> forall j :: k <= j < r.value ==> !MatchesAt(s, j, p)
    ensures r.None? ==> forall j :: k <= j < |s| ==> !MatchesAt(s, j, p)
    decreases |s| - k
  {
    if k == |s| then None
    else if MatchesAt(s, k, p) then Some(k)
    else SearchFrom(s, p, k + 1)
  }

  /** End of the run of `cls` characters that starts at `i`. */
  function RunEnd(s: string, i: nat, cls: CharClass): (e: nat)
    requires i <= |s|
    ensures i <= e <= |s|
    ensures forall j :: i <= j < e ==> InClass(s[j], cls)
    ensures e == |s| || !InClass(s[e], cls)
    decreases |s| - i
  {
    if i < |s| && InClass(s[i], cls) then RunEnd(s, i + 1, cls) else i
  }

  /** `re.search(p, s).group(1)` for a pattern without a suffix, or `None`
      when the search fails. */
  function Capture(s: string, p: Pattern): (r: Option<string>)
    ensures r.None? <==> forall i :: 0 <= i < |s| ==> !MatchesAt(s, i, p)
    ensures r.Some? ==> exists i :: LeftmostMatch(s, i, p) && MaximalRun(s, i + |p.flag|, r.value, p.body)
  {
    match SearchFrom(s, p, 0)
    case None => None
    case Some(i) =>
      var start := i + |p.flag|;
      var v := s[start..RunEnd(s, start, p.body)];
      assert LeftmostMatch(s, i, p) && MaximalRun(s, start, v, p.body);
      Some(v)
  }

  /** The characters `[kmg]` matches under `re.IGNORECASE`: the six ASCII
      letters and KELVIN SIGN, which Python's Unicode case folding pairs
      with `k`. */
  predicate IsUnit(c: char) {
    c in "kmgKMG\U{212A}"
  }

  /** The greedy digit run at `start` with no unit letter after it. */
  predicate BareDigits(s: string, start: int, v: string) {
    MaximalRun(s, start, v, Digits) && (start + |v| == |s| || !IsUnit(s[start + |v|]))
  }

  /** `v` is what `([0-9]+[kmg]?)` captures at `start`: the greedy digit run,
      followed by the next character when that one is a unit letter. */
  predicate MemoryCaptured(s: string, start: int, v: string) {
    || BareDigits(s, start, v)
    || (&& |v| >= 2
        && MaximalRun(s, start, v[..|v| - 1], Digits)
        && start + |v| <= |s|
        && s[start + |v| - 1] == v[|v| - 1]
        && IsUnit(v[|v| - 1]))
  }

  /** `--cpus=` limit: the run of digits and dots after the first `--cpus=`
      that is followed by at least one of them. */
  function CpuLimit(params: string): (r: Option<string>)
    ensures r.None? <==> forall i :: 0 <= i < |params| ==> !MatchesAt(params, i, CpusPattern)
    ensures r.Some? ==> exists i :: LeftmostMatch(params, i, CpusPattern)
                                    && MaximalRun(params, i + |CpusPattern.flag|, r.value, DigitsOrDot)
  {
    Capture(params, CpusPattern)
  }

  /** `--cpu-shares=` value: the digits after the first matching flag. */
  function CpuShares(params: string): (r: Option<string>)
    ensures r.None? <==> forall i :: 0 <= i < |params| ==> !MatchesAt(params, i, CpuSharesPattern)
    ensures r.Some? ==> AllDigits(r.value) && r.value != ""
    ensures r.Some? ==> exists i :: LeftmostMatch(params, i, CpuSharesPattern)
                                    && MaximalRun(params, i + |CpuSharesPattern.flag|, r.value, Digits)
  {
    Capture(params, CpuSharesPattern)
  }

  /** The digit run ending at `e` that a unit letter follows is captured
      together with that letter. */
  lemma MemoryWithUnit(s: string, start: nat, e: nat)
    requires start < e < |s|
    requires forall j :: start <= j < e ==> InClass(s[j], Digits)
    requires !InClass(s[e], Digits) && IsUnit(s[e])
    ensures MemoryCaptured(s, start, s[start..e + 1])
  {
    var v := s[start..e + 1];
    assert v[..|v| - 1] == s[start..e];
  }

  /** `--memory=` limit, case-insensitive throughout: the digit run after
      the first matching flag plus an optional unit letter, kept as written. */
  function MemoryLimit(params: string): (r: Option<string>)
    ensures r.None? <==> forall i :: 0 <= i < |params| ==> !MatchesAt(params, i, MemoryPattern)
    ensures r.Some? ==> exists i :: LeftmostMatch(params, i, MemoryPattern)
                                    && MemoryCaptured(params, i + |MemoryPattern.flag|, r.value)
  {
    match SearchFrom(params, MemoryPattern, 0)
    case None => None
    case Some(i) =>
      var start := i + |MemoryPattern.flag|;
      var e := RunEnd(params, start, Digits);
      assert LeftmostMatch(params, i, MemoryPattern);
      if e < |params| && IsUnit(params[e]) then
        MemoryWithUnit(params, start, e);
        Some(params[start..e + 1])
      else
        assert MemoryCaptured(params, start, params[start..e]);
        Some(params[start..e])
  }

  // The contracts above determine the result: there is one leftmost match
  // and one greedy capture, so they pin down what `re.search` returns.

  lemma LeftmostUnique(s: string, i: int, j: int, p: Pattern)
    requires LeftmostMatch(s, i, p) && LeftmostMatch(s, j, p)
    ensures i == j
  {
  }

  /** Every character a run covers belongs to its class. */
  lemma RunCovers(s: string, start: int, v: string, cls: CharClass, k: int)
    requires MaximalRun(s, start, v, cls) && 0 <= k < |v|
    ensures InClass(s[start + k], cls)
  {
    assert s[start..start + |v|][k] == s[start + k];
  }

  lemma MaximalRunUnique(s: string, start: int, v: string, w: string, cls: CharClass)
    requires MaximalRun(s, start, v, cls) && MaximalRun(s, start, w, cls)
    ensures v == w
  {
    if |v| < |w| {
      RunCovers(s, start, w, cls, |v|);
      assert false;
    } else if |w| < |v| {
      RunCovers(s, start, v, cls, |w|);
      assert false;
    }
  }

  lemma MemoryCapturedUnique(s: string, start: int, v: string, w: string)
    requires MemoryCaptured(s, start, v) && MemoryCaptured(s, start, w)
    ensures v == w
  {
    if BareDigits(s, start, v) && BareDigits(s, start, w) {
      MaximalRunUnique(s, start, v, w, Digits);
    } else if BareDigits(s, start, v) {
      MaximalRunUnique(s, start, v, w[..|w| - 1], Digits);
      assert false;
    } else if BareDigits(s, start, w) {
      MaximalRunUnique(s, start, w, v[..|v| - 1], Digits);
      assert false;
    } else {
      MaximalRunUnique(s, start, v[..|v| - 1], w[..|w| - 1], Digits);
      assert v == v[..|v| - 1] + [v[|v| - 1]];
      assert w == w[..|w| - 1] + [w[|w| - 1]];
    }
  }

  /** An ExtraParams text with both a cpu and a memory limit. */
  const ExampleParams := "--cpus=1.5 --memory=512m"

  /** `--cpus=1.5 --memory=512m` yields the cpu limit `1.5`. */
  lemma CpusExample()
    ensures CpuLimit(ExampleParams) == Some("1.5")
  {
    var s := ExampleParams;
    assert LeftmostMatch(s, 0, CpusPattern);
    assert MaximalRun(s, 7, "1.5", DigitsOrDot) by { assert s[7..10] == "1.5"; }
    var cpus := CpuLimit(s);
    var i :| LeftmostMatch(s, i, CpusPattern) && MaximalRun(s, i + 7, cpus.value, DigitsOrDot);
    LeftmostUnique(s, i, 0, CpusPattern);
    MaximalRunUnique(s, 7, cpus.value, "1.5", DigitsOrDot);
  }

  /** ... the memory limit `512m`, the `--memory=` flag being the first
      one after the cpu flag. */
  lemma MemoryExample()
    ensures MemoryLimit(ExampleParams) == Some("512m")
  {
    var s := ExampleParams;
    MemoryFlagAt11();
    MemoryCapturedAt20();
    var memory := MemoryLimit(s);
    var m :| LeftmostMatch(s, m, MemoryPattern) && MemoryCaptured(s, m + 9, memory.value);
    LeftmostUnique(s, m, 11, MemoryPattern);
    MemoryCapturedUnique(s, 20, memory.value, "512m");
  }

  /** ... and no cpu shares. */
  lemma SharesExample()
    ensures CpuShares(ExampleParams) == None
  {
    var s := ExampleParams;
    // for each start, the offset within `--cpu-shares=` of a character the
    // text lacks, before and after the memory flag's start
    forall j | 0 <= j < 11 ensures !MatchesAt(s, j, CpuSharesPattern) {
      FlagMismatch(s, j, CpuSharesPattern, if j == 0 then 5 else if j == 1 then 1 else 0);
    }
    forall j | 11 <= j < |s| ensures !MatchesAt(s, j, CpuSharesPattern) {
      FlagMismatch(s, j, CpuSharesPattern, if j == 11 then 2 else if j == 12 then 1 else 0);
    }
  }

  lemma MemoryCapturedAt20()
    ensures MemoryCaptured(ExampleParams, 20, "512m")
  {
    var s := ExampleParams;
    assert MaximalRun(s, 20, "512", Digits) by { assert s[20..23] == "512"; }
    assert "512m"[..3] == "512";
  }

  lemma MemoryFlagAt11()
    ensures LeftmostMatch(ExampleParams, 11, MemoryPattern)
  {
    var s := ExampleParams;
    forall j | 0 <= j < 11 ensures !MatchesAt(s, j, MemoryPattern) {
      // the offset within `--memory=` of a character the text lacks
      var k := if j == 0 then 2 else if j == 1 then 1 else 0;
      FlagMismatch(s, j, MemoryPattern, k);
    }
  }

  /** The pattern does not match at `j` when the text differs from the
      flag's `k`-th character. */
  lemma FlagMismatch(s: string, j: int, p: Pattern, k: int)
    requires 0 <= j && 0 <= k < |p.flag| && j + k < |s|
    requires !CharMatches(s[j + k], p.flag[k], p.ignoreCase)
    ensures !MatchesAt(s, j, p)
  {
  }
}
