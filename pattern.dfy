/** The first match of the pattern that `AppVersion.from` hands to
    NSRegularExpression,

      (?<version>(\d+)[.](\d+)([.](\d+))?)(-(?<suffix>[a-z]+)){0,1}((,|_)(?<build>\d+)){0,1}

    written as a scanner over ASCII text. A regular-expression engine tries the
    start positions from left to right and, at a start, takes every quantifier
    greedily. Once `\d+[.]\d+` has matched, everything after it is optional, so
    the first successful path is the greedy one and no backtracking is ever
    observed. The functions below state that match; the method `Scan` computes
    it with loops. */
module VersionPattern {
  import opened Optional
  import opened Digits

  predicate IsLower(c: char) {
    'a' <= c <= 'z'
  }

  predicate AllLower(x: string) {
    forall k :: 0 <= k < |x| ==> IsLower(x[k])
  }

  /** End of the maximal run of lowercase ASCII letters that starts at `i`. */
  function LowersEnd(s: string, i: nat): (j: nat)
    requires i <= |s|
    ensures i <= j <= |s|
    ensures forall k :: i <= k < j ==> IsLower(s[k])
    ensures j == |s| || !IsLower(s[j])
    decreases |s| - i
  {
    if i < |s| && IsLower(s[i]) then LowersEnd(s, i + 1) else i
  }

  lemma LowersEndUnique(s: string, i: nat, j: nat)
    requires i <= j <= |s|
    requires forall k :: i <= k < j ==> IsLower(s[k])
    requires j == |s| || !IsLower(s[j])
    ensures LowersEnd(s, i) == j
  {
  }

  /** A half-open range `[lo, hi)` of positions in the input. */
  datatype Span = Span(lo: nat, hi: nat)

  /** The captures of one match: the numbered groups of the version (major,
      minor, optional patch) and the named groups `suffix` and `build`. */
  datatype Match = Match(major: Span, minor: Span, patch: Option<Span>,
                         suffix: Option<Span>, build: Option<Span>)
  {
    /** The named group `version`: from the major number to the last number. */
    function Version(): Span {
      Span(major.lo, if patch.Some? then patch.value.hi else minor.hi)
    }
  }

  /** `[sp.lo, sp.hi)` is a non-empty run of digits taken in full: the
      character after it, if any, is not a digit. */
  predicate MaximalDigits(s: string, sp: Span) {
    sp.lo < sp.hi <= |s| &&
    (forall k :: sp.lo <= k < sp.hi ==> IsDigit(s[k])) &&
    (sp.hi == |s| || !IsDigit(s[sp.hi]))
  }

  /** Like `MaximalDigits`, for lowercase ASCII letters. */
  predicate MaximalLowers(s: string, sp: Span) {
    sp.lo < sp.hi <= |s| &&
    (forall k :: sp.lo <= k < sp.hi ==> IsLower(s[k])) &&
    (sp.hi == |s| || !IsLower(s[sp.hi]))
  }

  /** A `.` with a digit on each side: `\d[.]\d`. */
  predicate DotBetweenDigits(s: string, j: int) {
    0 < j < |s| - 1 && IsDigit(s[j - 1]) && s[j] == '.' && IsDigit(s[j + 1])
  }

  /** Some substring of `s` has the form digits `.` digits. */
  ghost predicate HasDottedDigits(s: string) {
    exists j :: DotBetweenDigits(s, j)
  }

  /** The mandatory part `(\d+)[.](\d+)` of the pattern matches at `i`. */
  predicate VersionStartsAt(s: string, i: nat) {
    i < |s| && IsDigit(s[i]) &&
    var j := DigitsEnd(s, i);
    j + 1 < |s| && s[j] == '.' && IsDigit(s[j + 1])
  }

  /** The optional group `([.](\d+))?` after position `p`. */
  function PatchAt(s: string, p: nat): (r: Option<Span>)
    requires p <= |s|
    ensures r.Some? <==> p + 1 < |s| && s[p] == '.' && IsDigit(s[p + 1])
    ensures r.Some? ==> r.value.lo == p + 1 && MaximalDigits(s, r.value)
  {
    if p + 1 < |s| && s[p] == '.' && IsDigit(s[p + 1]) then
      Some(Span(p + 1, DigitsEnd(s, p + 1)))
    else
      None
  }

  /** The optional group `(-(?<suffix>[a-z]+)){0,1}` after position `p`;
      the capture leaves out the `-`. */
  function SuffixAt(s: string, p: nat): (r: Option<Span>)
    requires p <= |s|
    ensures r.Some? <==> p + 1 < |s| && s[p] == '-' && IsLower(s[p + 1])
    ensures r.Some? ==> r.value.lo == p + 1 && MaximalLowers(s, r.value)
  {
    if p + 1 < |s| && s[p] == '-' && IsLower(s[p + 1]) then
      Some(Span(p + 1, LowersEnd(s, p + 1)))
    else
      None
  }

  /** The optional group `((,|_)(?<build>\d+)){0,1}` after position `p`;
      the capture leaves out the separator. */
  function BuildAt(s: string, p: nat): (r: Option<Span>)
    requires p <= |s|
    ensures r.Some? <==> p + 1 < |s| && (s[p] == ',' || s[p] == '_') && IsDigit(s[p + 1])
    ensures r.Some? ==> r.value.lo == p + 1 && MaximalDigits(s, r.value)
  {
    if p + 1 < |s| && (s[p] == ',' || s[p] == '_') && IsDigit(s[p + 1]) then
      Some(Span(p + 1, DigitsEnd(s, p + 1)))
    else
      None
  }

  /** End of the greedy match of the group `version` at `i`. */
  function VersionEnd(s: string, i: nat): (e: nat)
    requires VersionStartsAt(s, i)
    ensures i < e <= |s|
  {
    var j2 := DigitsEnd(s, DigitsEnd(s, i) + 1);
    var patch := PatchAt(s, j2);
    if patch.Some? then patch.value.hi else j2
  }

  /** The greedy match of the whole pattern at a start where it matches. */
  function MatchAt(s: string, i: nat): (m: Match)
    requires VersionStartsAt(s, i)
    ensures m.major.lo == i && MaximalDigits(s, m.major)
    ensures s[m.major.hi] == '.' && m.minor.lo == m.major.hi + 1 && MaximalDigits(s, m.minor)
    ensures m.patch == PatchAt(s, m.minor.hi)
    ensures var e := m.Version().hi;
            e == VersionEnd(s, i) && m.suffix == SuffixAt(s, e) &&
            m.build == BuildAt(s, if m.suffix.Some? then m.suffix.value.hi else e)
  {
    var j1 := DigitsEnd(s, i);
    var j2 := DigitsEnd(s, j1 + 1);
    var patch := PatchAt(s, j2);
    var e := VersionEnd(s, i);
    var suffix := SuffixAt(s, e);
    var build := BuildAt(s, if suffix.Some? then suffix.value.hi else e);
    Match(Span(i, j1), Span(j1 + 1, j2), patch, suffix, build)
  }

  /** The first match at a start position `i` or later. */
  function FirstMatchFrom(s: string, i: nat): (r: Option<Match>)
    requires i <= |s|
    ensures r.Some? ==> var lo := r.value.major.lo;
                        i <= lo && VersionStartsAt(s, lo) && r.value == MatchAt(s, lo)
    decreases |s| - i
  {
    if i == |s| then None
    else if VersionStartsAt(s, i) then Some(MatchAt(s, i))
    else FirstMatchFrom(s, i + 1)
  }

  /** `regex.matches(in: s, ...).first`. */
  function FirstMatch(s: string): (r: Option<Match>)
    ensures r.Some? ==> VersionStartsAt(s, r.value.major.lo) && r.value == MatchAt(s, r.value.major.lo)
  {
    FirstMatchFrom(s, 0)
  }

  /** Searching from `i` finds the leftmost start at or after `i`. */
  lemma {:induction false} FirstMatchFromSpec(s: string, i: nat)
    requires i <= |s|
    ensures FirstMatchFrom(s, i).None? <==> forall k :: i <= k < |s| ==> !VersionStartsAt(s, k)
    ensures FirstMatchFrom(s, i).Some? ==>
              var m := FirstMatchFrom(s, i).value;
              i <= m.major.lo && VersionStartsAt(s, m.major.lo) && m == MatchAt(s, m.major.lo) &&
              forall k :: i <= k < m.major.lo ==> !VersionStartsAt(s, k)
    decreases |s| - i
  {
    if i < |s| && !VersionStartsAt(s, i) {
      FirstMatchFromSpec(s, i + 1);
    }
  }

  /** Start of the maximal digit run that ends just after position `k`. */
  function RunStart(s: string, k: nat): (i: nat)
    requires k < |s| && IsDigit(s[k])
    ensures i <= k && (forall x :: i <= x <= k ==> IsDigit(s[x]))
    ensures i == 0 || !IsDigit(s[i - 1])
  {
    if k > 0 && IsDigit(s[k - 1]) then RunStart(s, k - 1) else k
  }

  /** A `digit . digit` at `j` is found by the search from the start of the
      digit run before it. */
  lemma DottedGivesStart(s: string, j: int) returns (i: nat)
    requires DotBetweenDigits(s, j)
    ensures i < j && VersionStartsAt(s, i) && DigitsEnd(s, i) == j
  {
    i := RunStart(s, j - 1);
    DigitsEndUnique(s, i, j);
  }

  /** `from` returns nil exactly when no substring has the form digits `.` digits. */
  lemma NoMatchIff(s: string)
    ensures FirstMatch(s).None? <==> !HasDottedDigits(s)
  {
    FirstMatchFromSpec(s, 0);
    if FirstMatch(s).Some? {
      var i := FirstMatch(s).value.major.lo;
      assert DotBetweenDigits(s, DigitsEnd(s, i));
    } else if HasDottedDigits(s) {
      var j :| DotBetweenDigits(s, j);
      var i := DottedGivesStart(s, j);
      assert false;
    }
  }

  /** The match is the leftmost one: it begins a digit run, and no
      `digit . digit` occurs in `s` before its first dot. */
  lemma FirstMatchIsLeftmost(s: string)
    requires FirstMatch(s).Some?
    ensures var m := FirstMatch(s).value;
            VersionStartsAt(s, m.major.lo) && m == MatchAt(s, m.major.lo) &&
            (m.major.lo == 0 || !IsDigit(s[m.major.lo - 1])) &&
            (forall j :: DotBetweenDigits(s, j) ==> m.major.hi <= j)
  {
    FirstMatchFromSpec(s, 0);
    var m := FirstMatch(s).value;
    var lo := m.major.lo;
    if lo > 0 {
      assert !VersionStartsAt(s, lo - 1);
    }
    forall j | DotBetweenDigits(s, j)
      ensures m.major.hi <= j
    {
      var i := DottedGivesStart(s, j);
      assert lo <= i;
      if i < m.major.hi {
        DigitsEndUnique(s, i, m.major.hi);
      }
    }
  }

  /** `v` is exactly a text that the group `version`, `\d+[.]\d+([.]\d+)?`,
      matches in full. */
  predicate IsVersionText(v: string) {
    VersionStartsAt(v, 0) && VersionEnd(v, 0) == |v|
  }

  /** A digit run inside `s[a..b]` ends where it ends in `s`, when it ends by `b`. */
  lemma DigitsEndSlice(s: string, a: nat, b: nat, k: nat)
    requires a <= k <= b <= |s| && DigitsEnd(s, k) <= b
    ensures DigitsEnd(s[a..b], k - a) == DigitsEnd(s, k) - a
  {
    var t := s[a..b];
    var e := DigitsEnd(s, k);
    assert forall x :: k - a <= x < e - a ==> t[x] == s[x + a];
    DigitsEndUnique(t, k - a, e - a);
  }

  /** A digit run of `s` ends at the same place in any extension `t` of `s`,
      unless it reaches the end of `s` and `t` goes on with a digit. */
  lemma DigitsEndPrefix(s: string, t: string, k: nat)
    requires s <= t && k <= |s|
    requires DigitsEnd(s, k) < |s| || |t| == |s| || !IsDigit(t[|s|])
    ensures DigitsEnd(t, k) == DigitsEnd(s, k)
  {
    DigitsEndUnique(t, k, DigitsEnd(s, k));
  }

  /** The text of the group `version` of a match is a version text. */
  lemma MatchedVersionIsVersionText(s: string, i: nat)
    requires VersionStartsAt(s, i)
    ensures var e := VersionEnd(s, i);
            i < e <= |s| && IsVersionText(s[i..e])
  {
    var e := VersionEnd(s, i);
    var t := s[i..e];
    var j1 := DigitsEnd(s, i);
    var j2 := DigitsEnd(s, j1 + 1);
    MajorMinorInSlice(s, i);
    PatchInSlice(s, i);
  }

  /** Cut out of the input, the text of the group `version` ends with the
      same optional patch number, which reaches its end. */
  lemma PatchInSlice(s: string, i: nat)
    requires VersionStartsAt(s, i)
    ensures var e := VersionEnd(s, i);
            var j2 := DigitsEnd(s, DigitsEnd(s, i) + 1);
            i <= j2 <= e &&
            PatchAt(s[i..e], j2 - i) == if PatchAt(s, j2).Some? then Some(Span(j2 - i + 1, e - i)) else None
  {
    var e := VersionEnd(s, i);
    var t := s[i..e];
    var j2 := DigitsEnd(s, DigitsEnd(s, i) + 1);
    if PatchAt(s, j2).Some? {
      assert t[j2 - i] == s[j2] && t[j2 - i + 1] == s[j2 + 1];
      DigitsEndSlice(s, i, e, j2 + 1);
    }
  }

  /** Cut out of the input, the text of the group `version` still starts
      with the same major and minor numbers. */
  lemma MajorMinorInSlice(s: string, i: nat)
    requires VersionStartsAt(s, i)
    ensures var e, j1 := VersionEnd(s, i), DigitsEnd(s, i);
            var t := s[i..e];
            VersionStartsAt(t, 0) && DigitsEnd(t, 0) == j1 - i &&
            DigitsEnd(t, j1 - i + 1) == DigitsEnd(s, j1 + 1) - i
  {
    var e := VersionEnd(s, i);
    var t := s[i..e];
    var j1 := DigitsEnd(s, i);
    DigitsEndSlice(s, i, e, i);
    assert t[j1 - i] == s[j1] && t[j1 - i + 1] == s[j1 + 1];
    DigitsEndSlice(s, i, e, j1 + 1);
  }

  /** When `t` starts with a version text that ends at `e`, followed by a
      character that neither continues a number nor starts a third
      component, the group `version` matches exactly `t[..e]`. */
  lemma VersionEndAfter(t: string, e: nat)
    requires e < |t| && IsVersionText(t[..e]) && !IsDigit(t[e]) && t[e] != '.'
    ensures VersionStartsAt(t, 0) && VersionEnd(t, 0) == e
  {
    var v := t[..e];
    var j1 := DigitsEnd(v, 0);
    var j2 := DigitsEnd(v, j1 + 1);
    DigitsEndPrefix(v, t, 0);
    DigitsEndPrefix(v, t, j1 + 1);
    if PatchAt(v, j2).Some? {
      DigitsEndPrefix(v, t, j2 + 1);
    }
  }

  /** The group `suffix` takes a run of letters after `-` that ends at `q`. */
  lemma SuffixOf(t: string, e: nat, q: nat)
    requires e + 1 < q <= |t| && t[e] == '-' && AllLower(t[e + 1..q])
    requires q == |t| || !IsLower(t[q])
    ensures SuffixAt(t, e) == Some(Span(e + 1, q))
  {
    assert forall k :: e + 1 <= k < q ==> t[k] == t[e + 1..q][k - e - 1];
    LowersEndUnique(t, e + 1, q);
  }

  /** The group `build` takes the digits after the separator up to the end. */
  lemma BuildOf(t: string, q: nat)
    requires q + 1 < |t| && (t[q] == ',' || t[q] == '_') && AllDigits(t[q + 1..])
    ensures BuildAt(t, q) == Some(Span(q + 1, |t|))
  {
    assert forall k :: q + 1 <= k < |t| ==> t[k] == t[q + 1..][k - q - 1];
    DigitsEndUnique(t, q + 1, |t|);
  }

  /** A text made of a version text up to `e`, optionally `-` and lowercase
      letters up to `q`, then `,` or `_` and digits to the end: the match
      starts at 0 and every group captures its part. */
  lemma MatchOfParts(t: string, e: nat, q: nat)
    requires e < |t| && IsVersionText(t[..e])
    requires e <= q < |t| - 1 && (t[q] == ',' || t[q] == '_') && AllDigits(t[q + 1..])
    requires e < q ==> e + 1 < q && t[e] == '-' && AllLower(t[e + 1..q])
    ensures FirstMatch(t).Some? &&
            var m := FirstMatch(t).value;
            m.Version() == Span(0, e) &&
            m.suffix == (if e < q then Some(Span(e + 1, q)) else None) &&
            m.build == Some(Span(q + 1, |t|))
  {
    VersionEndAfter(t, e);
    if e < q {
      SuffixOf(t, e, q);
    }
    BuildOf(t, q);
  }

  /** A version text ended by a character that none of the groups can take:
      the match is the version text alone. */
  lemma MatchOfVersionOnly(t: string, e: nat)
    requires e < |t| && IsVersionText(t[..e])
    requires !IsDigit(t[e]) && t[e] !in ".-,_"
    ensures FirstMatch(t).Some? &&
            var m := FirstMatch(t).value;
            m.Version() == Span(0, e) && m.suffix.None? && m.build.None?
  {
    VersionEndAfter(t, e);
  }

  /** Skips the digit run starting at `i`. */
  method SkipDigits(s: string, i: nat) returns (j: nat)
    requires i <= |s|
    ensures j == DigitsEnd(s, i)
  {
    j := i;
    while j < |s| && IsDigit(s[j])
      invariant i <= j <= |s|
      invariant DigitsEnd(s, j) == DigitsEnd(s, i)
    {
      j := j + 1;
    }
  }

  /** Skips the run of lowercase letters starting at `i`. */
  method SkipLowers(s: string, i: nat) returns (j: nat)
    requires i <= |s|
    ensures j == LowersEnd(s, i)
  {
    j := i;
    while j < |s| && IsLower(s[j])
      invariant i <= j <= |s|
      invariant LowersEnd(s, j) == LowersEnd(s, i)
    {
      j := j + 1;
    }
  }

  /** Tries the optional group `([.](\d+))?` at `p`. */
  method ScanPatch(s: string, p: nat) returns (r: Option<Span>)
    requires p <= |s|
    ensures r == PatchAt(s, p)
  {
    r := None;
    if p + 1 < |s| && s[p] == '.' && IsDigit(s[p + 1]) {
      var e := SkipDigits(s, p + 1);
      r := Some(Span(p + 1, e));
    }
  }

  /** Tries the optional group `(-(?<suffix>[a-z]+)){0,1}` at `p`. */
  method ScanSuffix(s: string, p: nat) returns (r: Option<Span>)
    requires p <= |s|
    ensures r == SuffixAt(s, p)
  {
    r := None;
    if p + 1 < |s| && s[p] == '-' && IsLower(s[p + 1]) {
      var e := SkipLowers(s, p + 1);
      r := Some(Span(p + 1, e));
    }
  }

  /** Tries the optional group `((,|_)(?<build>\d+)){0,1}` at `p`. */
  method ScanBuild(s: string, p: nat) returns (r: Option<Span>)
    requires p <= |s|
    ensures r == BuildAt(s, p)
  {
    r := None;
    if p + 1 < |s| && (s[p] == ',' || s[p] == '_') && IsDigit(s[p + 1]) {
      var e := SkipDigits(s, p + 1);
      r := Some(Span(p + 1, e));
    }
  }

  /** The greedy match at a start `i` where the mandatory part matches,
      given the end `j1` of the major number. */
  method MatchHere(s: string, i: nat, j1: nat) returns (m: Match)
    requires VersionStartsAt(s, i) && j1 == DigitsEnd(s, i)
    ensures m == MatchAt(s, i)
  {
    var j2 := SkipDigits(s, j1 + 1);
    var patch := ScanPatch(s, j2);
    var e := if patch.Some? then patch.value.hi else j2;
    assert e == VersionEnd(s, i);
    var suffix := ScanSuffix(s, e);
    var build := ScanBuild(s, if suffix.Some? then suffix.value.hi else e);
    m := Match(Span(i, j1), Span(j1 + 1, j2), patch, suffix, build);
  }

  /** The scanner that stands for the regular-expression search: tries each
      start position in turn and, at the first one where the mandatory part
      matches, takes each optional group greedily. */
  method Scan(s: string) returns (m: Option<Match>)
    ensures m == FirstMatch(s)
  {
    var i := 0;
    while i < |s|
      invariant i <= |s|
      invariant FirstMatchFrom(s, i) == FirstMatch(s)
    {
      if IsDigit(s[i]) {
        var j1 := SkipDigits(s, i);
        if j1 + 1 < |s| && s[j1] == '.' && IsDigit(s[j1 + 1]) {
          var here := MatchHere(s, i, j1);
          return Some(here);
        }
      }
      i := i + 1;
    }
    return None;
  }
}
