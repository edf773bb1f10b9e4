/** `AppVersion`: a version string, an optional build number and an optional
    lowercase suffix, read out of free-form text and ordered to decide whether
    an update is newer. The Swift class only sets its fields in `init`, so it is
    a value here. */
module Versions {
  import opened Optional
  import opened Digits
  import opened VersionPattern
  import NumericCompare

  datatype AppVersion = AppVersion(version: string, build: Option<int>, suffix: Option<string>)

  /** `init(version:build:suffix:)`: the build text is converted with
      `Int(_:)`, so text that is not an `Int` leaves the build nil. */
  function Init(version: string, build: Option<string>, suffix: Option<string>): (v: AppVersion)
    ensures v.version == version && v.suffix == suffix
    ensures v.build.Some? <==> build.Some? && ParseInt(build.value).Some?
    ensures build.Some? ==> v.build == ParseInt(build.value)
    ensures v.build.Some? ==> IntMin <= v.build.value <= IntMax
  {
    AppVersion(version, if build.None? then None else ParseInt(build.value), suffix)
  }

  function Slice(s: string, sp: Span): string
    requires sp.lo <= sp.hi <= |s|
  {
    s[sp.lo..sp.hi]
  }

  /** The value `AppVersion.from(s)` returns, from the first match of the pattern. */
  function Parse(s: string): Option<AppVersion> {
    match FirstMatch(s)
    case None => None
    case Some(m) =>
      var build := if m.build.Some? then Some(Slice(s, m.build.value)) else None;
      var suffix := if m.suffix.Some? then Some(Slice(s, m.suffix.value)) else None;
      Some(Init(Slice(s, m.Version()), build, suffix))
  }

  /** `AppVersion.from(_:)`: runs the search, then fills in `version`,
      `build` and `suffix` from the captured groups. */
  method From(s: string) returns (r: Option<AppVersion>)
    ensures r == Parse(s)
  {
    var found := Scan(s);
    if found.None? {
      return None;
    }
    var m := found.value;
    var version := Slice(s, m.Version());
    var build: Option<string> := None;
    var suffix: Option<string> := None;
    if m.build.Some? {
      build := Some(Slice(s, m.build.value));
    }
    if m.suffix.Some? {
      suffix := Some(Slice(s, m.suffix.value));
    }
    r := Some(Init(version, build, suffix));
  }

  /** `from` gives nil exactly when no substring has the form digits `.` digits. */
  lemma ParseNoneIff(s: string)
    ensures Parse(s).None? <==> !HasDottedDigits(s)
  {
    NoMatchIff(s);
  }

  /** The version of a successful `from` is the text of the group `version`
      of the leftmost match: a full version text, so never the empty default,
      and no `digit . digit` occurs in the input before its first dot. */
  lemma ParsedVersion(s: string)
    requires Parse(s).Some?
    ensures var v, m := Parse(s).value, FirstMatch(s).value;
            var vs := m.Version();
            vs.lo < vs.hi <= |s| && v.version == s[vs.lo..vs.hi] && IsVersionText(v.version) &&
            forall j :: DotBetweenDigits(s, j) ==> m.major.hi <= j
  {
    var m := FirstMatch(s).value;
    MatchedVersionIsVersionText(s, m.major.lo);
    FirstMatchIsLeftmost(s);
  }

  /** The suffix of a successful `from` is present exactly when the group
      `suffix` matched, and is its letters without the `-`. */
  lemma ParsedSuffix(s: string)
    requires Parse(s).Some?
    ensures var v, m := Parse(s).value, FirstMatch(s).value;
            (v.suffix.Some? <==> m.suffix.Some?) &&
            (v.suffix.Some? ==> |v.suffix.value| > 0 && AllLower(v.suffix.value) &&
                                v.suffix.value == s[m.suffix.value.lo..m.suffix.value.hi])
  {
  }

  /** The build of a successful `from` is the decimal value of the digits of
      the group `build`, leading zeros dropped, or nil when the group did not
      match or the value does not fit an `Int`. */
  lemma ParsedBuild(s: string)
    requires Parse(s).Some?
    ensures var v, m := Parse(s).value, FirstMatch(s).value;
            (v.build.Some? ==> m.build.Some? && 0 <= v.build.value <= IntMax) &&
            (m.build.Some? ==>
              var d := s[m.build.value.lo..m.build.value.hi];
              |d| > 0 && AllDigits(d) &&
              v.build == if Value(d) <= IntMax then Some(Value(d)) else None)
  {
  }

  /** A text made of a version text `v` up to `e`, optionally `-` and the
      lowercase letters `x` up to `q`, then `,` or `_` and the digits `d` to
      the end: each part lands in its field, and a build beyond `Int` is
      dropped. */
  lemma ParseOfParts(t: string, e: nat, q: nat, v: string, x: Option<string>, d: string)
    requires e < |t| && t[..e] == v && IsVersionText(v)
    requires e <= q < |t| && (t[q] == ',' || t[q] == '_') && t[q + 1..] == d && |d| > 0 && AllDigits(d)
    requires x.None? ==> e == q
    requires x.Some? ==> e + 1 < q && t[e] == '-' && t[e + 1..q] == x.value && AllLower(x.value)
    ensures Parse(t) == Some(AppVersion(v, if Value(d) <= IntMax then Some(Value(d)) else None, x))
  {
    MatchOfParts(t, e, q);
    var m := FirstMatch(t).value;
    assert Slice(t, m.Version()) == v;
    assert Slice(t, m.build.value) == d;
    assert m.suffix.Some? ==> Slice(t, m.suffix.value) == x.value;
    assert Parse(t) == Some(Init(v, Some(d), x));
    assert ParseInt(d) == if Value(d) <= IntMax then Some(Value(d)) else None;
  }

  /** A version text, `-` and lowercase letters, then `,` or `_` and digits:
      each part lands in its field. */
  lemma ParseVersionSuffixBuild(v: string, x: string, sep: char, d: string)
    requires IsVersionText(v) && (sep == ',' || sep == '_')
    requires |x| > 0 && AllLower(x)
    requires |d| > 0 && AllDigits(d)
    ensures Parse(v + "-" + x + [sep] + d) ==
              Some(AppVersion(v, if Value(d) <= IntMax then Some(Value(d)) else None, Some(x)))
  {
    var t := v + "-" + x + [sep] + d;
    var q := |v| + 1 + |x|;
    SuffixAndBuildParts(v, x, sep, d);
    ParseOfParts(t, |v|, q, v, Some(x), d);
  }

  /** Where the parts of `v + "-" + x + [sep] + d` sit. */
  lemma SuffixAndBuildParts(v: string, x: string, sep: char, d: string)
    ensures var t, q := v + "-" + x + [sep] + d, |v| + 1 + |x|;
            q < |t| && t[..|v|] == v && t[|v|] == '-' && t[|v| + 1..q] == x &&
            t[q] == sep && t[q + 1..] == d
  {
    var t, q := v + "-" + x + [sep] + d, |v| + 1 + |x|;
    assert t[..|v|] == v;
    assert t[|v| + 1..q] == x;
    assert t[q + 1..] == d;
  }

  /** A version text followed by a character that no optional group takes. */
  lemma ParseVersionThenOther(v: string, rest: string)
    requires IsVersionText(v)
    requires |rest| > 0 && !IsDigit(rest[0]) && rest[0] !in ".-,_"
    ensures Parse(v + rest) == Some(AppVersion(v, None, None))
  {
    var t := v + rest;
    assert t[..|v|] == v && t[|v|] == rest[0];
    MatchOfVersionOnly(t, |v|);
  }

  /** A version text, `,` or `_`, and digits: what `fromCurrentVersion` reads
      and what `computerReadable` writes. */
  lemma ParseVersionThenBuild(v: string, sep: char, d: string)
    requires IsVersionText(v) && (sep == ',' || sep == '_')
    requires |d| > 0 && AllDigits(d)
    ensures Parse(v + [sep] + d) ==
              Some(AppVersion(v, if Value(d) <= IntMax then Some(Value(d)) else None, None))
  {
    var t := v + [sep] + d;
    assert t[..|v|] == v && t[|v|] == sep && t[|v| + 1..] == d;
    ParseOfParts(t, |v|, |v|, v, None, d);
  }

  /** `fromCurrentVersion`: `from("\(shortVersion)_\(bundleVersion)")!`. The
      two strings come from the host bundle; the force-unwrap becomes the
      precondition that the text parses. */
  method FromCurrentVersion(shortVersion: string, bundleVersion: string) returns (v: AppVersion)
    requires Parse(shortVersion + "_" + bundleVersion).Some?
    ensures Some(v) == Parse(shortVersion + "_" + bundleVersion)
  {
    var r := From(shortVersion + "_" + bundleVersion);
    v := r.value;
  }

  /** A short version that is a version text and a bundle version of digits
      always meet the precondition of `FromCurrentVersion`. */
  lemma CurrentVersionParses(shortVersion: string, bundleVersion: string)
    requires IsVersionText(shortVersion)
    requires |bundleVersion| > 0 && AllDigits(bundleVersion) && Value(bundleVersion) <= IntMax
    ensures Parse(shortVersion + "_" + bundleVersion) ==
              Some(AppVersion(shortVersion, Some(Value(bundleVersion)), None))
  {
    ParseVersionThenBuild(shortVersion, '_', bundleVersion);
  }

  predicate EndsWithDotZero(s: string) {
    |s| >= 2 && s[|s| - 2..] == ".0"
  }

  /** `tagged`: drops a trailing ".0" from versions longer than three characters. */
  function Tagged(v: AppVersion): (r: string)
    ensures r <= v.version
    ensures |r| == |v.version| || |r| == |v.version| - 2
    ensures |r| < |v.version| <==> EndsWithDotZero(v.version) && |v.version| > 3
  {
    if EndsWithDotZero(v.version) && |v.version| > 3 then v.version[..|v.version| - 2]
    else v.version
  }

  /** "1.0" is kept, "1.10.0" and "10.0" lose ".0", and tagging twice can
      strip twice: "10.0.0" becomes "10.0" and then "10". */
  lemma TaggedExamples()
    ensures Tagged(AppVersion("1.0", None, None)) == "1.0"
    ensures Tagged(AppVersion("1.10.0", None, None)) == "1.10"
    ensures Tagged(AppVersion("10.0", None, None)) == "10"
    ensures Tagged(AppVersion("1.2.3", None, None)) == "1.2.3"
    ensures Tagged(AppVersion("10.0.0", None, None)) == "10.0"
    ensures Tagged(AppVersion(Tagged(AppVersion("10.0.0", None, None)), None, None)) == "10"
  {
    assert "1.10.0"[4..] == ".0";
    assert "10.0"[2..] == ".0";
    assert "10.0.0"[4..] == ".0";
    assert "1.2.3"[3..] != ".0" by {
      assert "1.2.3"[3..][1] == '3';
    }
  }

  /** `computerReadable`: `"\(version)_\(build ?? 0)"`. */
  function ComputerReadable(v: AppVersion): (r: string)
    ensures |r| > |v.version| + 1 && r[..|v.version|] == v.version && r[|v.version|] == '_'
    ensures r[|v.version| + 1..] == IntText(v.build.GetOr(0))
    ensures var b := v.build.GetOr(0);
            IntMin <= b <= IntMax ==> ParseInt(r[|v.version| + 1..]) == Some(b)
  {
    var r := v.version + "_" + IntText(v.build.GetOr(0));
    assert r[|v.version| + 1..] == IntText(v.build.GetOr(0));
    ParseIntText(v.build.GetOr(0));
    r
  }

  /** `humanReadable`: `"\(version) (\(build ?? 0))"`. */
  function HumanReadable(v: AppVersion): (r: string)
    ensures |r| > |v.version| + 3 && r[..|v.version|] == v.version
    ensures r[|v.version|..|v.version| + 2] == " (" && r[|r| - 1] == ')'
    ensures r[|v.version| + 2..|r| - 1] == IntText(v.build.GetOr(0))
    ensures var b := v.build.GetOr(0);
            IntMin <= b <= IntMax ==> ParseInt(r[|v.version| + 2..|r| - 1]) == Some(b)
  {
    var n := IntText(v.build.GetOr(0));
    var r := v.version + (" (" + n + ")");
    assert r[..|v.version|] == v.version;
    assert r[|v.version|..|v.version| + 2] == " (";
    assert r[|v.version| + 2..|r| - 1] == n;
    ParseIntText(v.build.GetOr(0));
    r
  }

  /** A missing build is written as 0, and a build as its plain decimal digits. */
  lemma ReadableExamples()
    ensures HumanReadable(AppVersion("2.0.0", None, None)) == "2.0.0 (0)"
    ensures ComputerReadable(AppVersion("1.2", Some(7), None)) == "1.2_7"
  {
  }

  /** Parsing `computerReadable` gives back the version, the build with nil
      read as 0, and no suffix. */
  lemma ComputerReadableRoundTrip(s: string)
    requires Parse(s).Some?
    ensures var v := Parse(s).value;
            Parse(ComputerReadable(v)) == Some(AppVersion(v.version, Some(v.build.GetOr(0)), None))
  {
    var v := Parse(s).value;
    ParsedVersion(s);
    ParsedBuild(s);
    var b := v.build.GetOr(0);
    assert 0 <= b <= IntMax;
    assert ComputerReadable(v) == v.version + ['_'] + NatText(b);
    ParseVersionThenBuild(v.version, '_', NatText(b));
  }

  /** Parsing `humanReadable` keeps the version but loses the build: the space
      before the parenthesis is not a build separator. */
  lemma HumanReadableLosesBuild(s: string)
    requires Parse(s).Some?
    ensures var v := Parse(s).value;
            Parse(HumanReadable(v)) == Some(AppVersion(v.version, None, None))
  {
    var v := Parse(s).value;
    ParsedVersion(s);
    var rest := " (" + IntText(v.build.GetOr(0)) + ")";
    assert HumanReadable(v) == v.version + rest;
    ParseVersionThenOther(v.version, rest);
  }

  /** "1.2" and "1.2.3" are version texts. */
  lemma VersionTextExamples()
    ensures IsVersionText("1.2") && IsVersionText("1.2.3")
  {
    DigitsEndUnique("1.2", 0, 1);
    DigitsEndUnique("1.2", 2, 3);
    DigitsEndUnique("1.2.3", 0, 1);
    DigitsEndUnique("1.2.3", 2, 3);
    DigitsEndUnique("1.2.3", 4, 5);
  }

  /** `from("1.2,7")`: a comma also separates the build. */
  lemma ParseCommaBuild()
    ensures Parse("1.2,7") == Some(AppVersion("1.2", Some(7), None))
  {
    assert IsVersionText("1.2") by { VersionTextExamples(); }
    assert Value("7") == 7;
    assert "1.2" + [','] + "7" == "1.2,7";
    ParseVersionThenBuild("1.2", ',', "7");
  }

  /** `from("1.2_007")`: leading zeros of the build are dropped. */
  lemma ParseLeadingZeros()
    ensures Parse("1.2_007") == Some(AppVersion("1.2", Some(7), None))
  {
    assert IsVersionText("1.2") by { VersionTextExamples(); }
    assert Value("007") == 7 by {
      ValueOfZeros("00", "7");
      assert "00" + "7" == "007";
    }
    assert "1.2" + ['_'] + "007" == "1.2_007";
    ParseVersionThenBuild("1.2", '_', "007");
  }

  /** `from("1.2.3")`: a three-part version alone. */
  lemma ParseVersionOnly()
    ensures Parse("1.2.3") == Some(AppVersion("1.2.3", None, None))
  {
    VersionTextExamples();
    var s := "1.2.3";
    assert FirstMatch(s) == Some(MatchAt(s, 0));
    assert s[0..5] == s;
  }

  /** `from("1.2.3-beta_45")`: version, suffix without its `-`, and build. */
  lemma ParseSuffixAndBuild()
    ensures Parse("1.2.3-beta_45") == Some(AppVersion("1.2.3", Some(45), Some("beta")))
  {
    assert IsVersionText("1.2.3") by { VersionTextExamples(); }
    assert Value("45") == 45;
    assert "1.2.3" + "-" + "beta" + ['_'] + "45" == "1.2.3-beta_45";
    ParseVersionSuffixBuild("1.2.3", "beta", '_', "45");
  }

  /** `from("no version here")` is nil. */
  lemma ParseNoVersion()
    ensures Parse("no version here") == None
  {
    var s := "no version here";
    assert forall k :: 0 <= k < |s| ==> !IsDigit(s[k]);
    ParseNoneIff(s);
  }

  // Ordering

  /** `AppVersion.<`: ascending versions under the module's numeric `String.<`,
      and otherwise the builds with nil read as 0, whatever the versions. */
  function Less(lhs: AppVersion, rhs: AppVersion): bool {
    if NumericCompare.Less(lhs.version, rhs.version) then true
    else lhs.build.GetOr(0) < rhs.build.GetOr(0)
  }

  /** `AppVersion.==`: numeric `String.==` on the versions and equality of the
      builds as optionals; the suffix takes no part. */
  function Equal(lhs: AppVersion, rhs: AppVersion): bool {
    NumericCompare.Equal(lhs.version, rhs.version) && lhs.build == rhs.build
  }

  lemma LessIrreflexive(v: AppVersion)
    ensures !Less(v, v)
  {
    NumericCompare.EqualReflexive(v.version);
  }

  /** When the versions are numerically equal, `<` is the order of the builds. */
  lemma LessOnEqualVersions(lhs: AppVersion, rhs: AppVersion)
    requires NumericCompare.Equal(lhs.version, rhs.version)
    ensures Less(lhs, rhs) <==> lhs.build.GetOr(0) < rhs.build.GetOr(0)
  {
    NumericCompare.Trichotomy(lhs.version, rhs.version);
  }

  /** Versions are compared numerically: "1.9" comes before "1.10". */
  lemma LessComparesVersionsNumerically()
    ensures Less(AppVersion("1.9", None, None), AppVersion("1.10", None, None))
    ensures !Less(AppVersion("1.10", None, None), AppVersion("1.9", None, None))
  {
    NumericCompare.DottedNumbersByValue();
    NumericCompare.LessAsymmetric("1.9", "1.10");
  }

  /** `==` is an equivalence, and equal values are not `<` either way. */
  lemma EqualIsEquivalence(a: AppVersion, b: AppVersion, c: AppVersion)
    ensures Equal(a, a)
    ensures Equal(a, b) ==> Equal(b, a)
    ensures Equal(a, b) && Equal(b, c) ==> Equal(a, c)
    ensures Equal(a, b) ==> !Less(a, b) && !Less(b, a)
  {
    NumericCompare.EqualReflexive(a.version);
    NumericCompare.EqualSymmetric(a.version, b.version);
    NumericCompare.Trichotomy(a.version, b.version);
    NumericCompare.Trichotomy(b.version, a.version);
  }

  /** `==` and `<` never look at the suffix. */
  lemma SuffixIgnored(a: AppVersion, b: AppVersion, s: Option<string>)
    ensures Equal(a, b) == Equal(a.(suffix := s), b)
    ensures Less(a, b) == Less(a.(suffix := s), b)
  {
  }

  // Findings: the ordering as written against the ordering evidently meant

  /** `<` is not asymmetric: version "2.0" with build 1 and version "1.0"
      with build 5 are each `<` the other, because the builds are compared
      even when the left version is the greater one. */
  lemma LessNotAsymmetric()
    ensures var newer, older := AppVersion("2.0", Some(1), None), AppVersion("1.0", Some(5), None);
            Less(newer, older) && Less(older, newer)
  {
    NumericCompare.LeadingNumberDecides();
    NumericCompare.LessAsymmetric("1.0", "2.0");
  }

  /** `==` tells a nil build from build 0 while `<` reads nil as 0: for
      version "1.0" without a build and with build 0 none of `<`, `==`, `>` holds. */
  lemma EqualNilIsNotZero()
    ensures var none, zero := AppVersion("1.0", None, None), AppVersion("1.0", Some(0), None);
            !Equal(none, zero) && !Less(none, zero) && !Less(zero, none)
  {
    NumericCompare.EqualReflexive("1.0");
  }

  /** The order evidently meant: versions first, builds (nil read as 0) only
      between equal versions. */
  function LessByVersionThenBuild(lhs: AppVersion, rhs: AppVersion): bool {
    NumericCompare.Less(lhs.version, rhs.version) ||
    (NumericCompare.Equal(lhs.version, rhs.version) && lhs.build.GetOr(0) < rhs.build.GetOr(0))
  }

  /** The equality evidently meant: nil read as 0, as `<` does. */
  function EqualTreatingNilAsZero(lhs: AppVersion, rhs: AppVersion): bool {
    NumericCompare.Equal(lhs.version, rhs.version) && lhs.build.GetOr(0) == rhs.build.GetOr(0)
  }

  /** The intended `<` is a strict order. */
  lemma IntendedLessIsStrictOrder(a: AppVersion, b: AppVersion, c: AppVersion)
    ensures !LessByVersionThenBuild(a, a)
    ensures LessByVersionThenBuild(a, b) ==> !LessByVersionThenBuild(b, a)
    ensures LessByVersionThenBuild(a, b) && LessByVersionThenBuild(b, c) ==> LessByVersionThenBuild(a, c)
  {
    NumericCompare.EqualReflexive(a.version);
    NumericCompare.Trichotomy(a.version, b.version);
    NumericCompare.LessAsymmetric(a.version, b.version);
    NumericCompare.EqualSymmetric(a.version, b.version);
    if LessByVersionThenBuild(a, b) && LessByVersionThenBuild(b, c) {
      if NumericCompare.Equal(a.version, b.version) {
        NumericCompare.EqualSubstitutes(b.version, a.version, c.version);
        NumericCompare.EqualSymmetric(a.version, b.version);
        if NumericCompare.Equal(b.version, c.version) {
          NumericCompare.EqualTransitive(a.version, b.version, c.version);
        }
      } else if NumericCompare.Equal(b.version, c.version) {
        NumericCompare.EqualSymmetric(b.version, c.version);
        NumericCompare.EqualSubstitutes(b.version, c.version, a.version);
      } else {
        NumericCompare.LessTransitive(a.version, b.version, c.version);
      }
    }
  }

  /** With both corrections exactly one of `<`, `==`, `>` holds of any pair. */
  lemma IntendedTrichotomy(a: AppVersion, b: AppVersion)
    ensures LessByVersionThenBuild(a, b) || EqualTreatingNilAsZero(a, b) || LessByVersionThenBuild(b, a)
    ensures !(LessByVersionThenBuild(a, b) && EqualTreatingNilAsZero(a, b))
    ensures !(LessByVersionThenBuild(b, a) && EqualTreatingNilAsZero(a, b))
    ensures !(LessByVersionThenBuild(a, b) && LessByVersionThenBuild(b, a))
  {
    NumericCompare.Trichotomy(a.version, b.version);
    NumericCompare.EqualSymmetric(a.version, b.version);
    NumericCompare.LessAsymmetric(a.version, b.version);
    NumericCompare.Trichotomy(b.version, a.version);
  }
}
