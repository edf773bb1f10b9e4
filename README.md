# AppVersion, modelled in Dafny

`AppVersion` (`Sources/AppUpdater/Support/AppVersion.swift`) reads a version
out of free-form text and orders versions to decide whether an update is
newer. A version is a version string such as `1.2.3`, an optional build
number and an optional lowercase suffix. This project models that type and
proves what its operations do.

The files:

- `optional.dfy`: the `Option` type that stands in for Swift optionals.
- `digits.dfy`: digit runs and their decimal value. It also writes an `Int`
  in decimal and reads one back. `ParseInt` is Swift's `Int(_: String)`
  over ASCII: an optional sign, digits, and nil outside the 64-bit range.
- `pattern.dfy`: the regular expression of `from`, which is
  `(\d+)[.](\d+)([.](\d+))?` then an optional `-[a-z]+` and an optional
  `,` or `_` followed by `\d+`.
  - The functions `FirstMatch` and `MatchAt` define its first, greedy match.
  - `NoMatchIff` and `FirstMatchIsLeftmost` prove what that match is.
  - The method `Scan` finds the match with index-advancing loops, in place of
    the regular expression engine, and is proved equal to `FirstMatch`.
- `numeric_compare.dfy`: the `String` operators `==`, `<`, `<=`, `>` and
  `>=` that the file declares. They are all one `.numeric` comparison,
  modelled as a natural order:
  - each maximal digit run is one number, compared by value;
  - every other character is compared by its code;
  - the results are compared lexicographically.
- `versions.dfy`: `AppVersion` as a datatype. The Swift class only sets its
  fields in `init`, so it is a value here. The file also holds:
  - `init` and `from`;
  - `fromCurrentVersion`, `tagged`, `computerReadable` and `humanReadable`;
  - `AppVersion.<` and `AppVersion.==`, and the corrected ordering.

Three facts about the code shape the ordering:

- Inside AppVersion.swift the `String` operands of `AppVersion.<` and
  `AppVersion.==` (lines 85 and 93) resolve to the file's own numeric
  overloads, so versions compare numerically, not by character codes.
- `AppVersion.==` compares the builds as optionals, so a missing build is
  not equal to build 0.
- `AppVersion.<` compares the builds whatever the versions are.

## Model

| member | source | states |
|---|---|---|
| Digits.ParseInt | Sources/AppUpdater/Support/AppVersion.swift:15 | When `Int(text)` gives a value, the text is digits, or `+` or `-` then digits, and the value is in the `Int` range. For digits and for `+` digits it gives their decimal value when that fits, else nil. For `-` digits it gives the negated value when that is at least the smallest `Int`, else nil. |
| Digits.NatText | Sources/AppUpdater/Support/AppVersion.swift:75 | The decimal text of a natural number is non-empty digits with no leading zero, and its value is that number. |
| Digits.IntText | Sources/AppUpdater/Support/AppVersion.swift:75 | The text of an integer in string interpolation is canonical decimal. For a non-negative integer it is digits with no leading zero (or `0`) whose value is the integer. For a negative one it is `-` then such digits whose value is the magnitude. |
| Digits.ParseIntText | Sources/AppUpdater/Support/AppVersion.swift:75 | Reading back the decimal text of any `Int` gives that `Int`. |
| Digits.ValueOfZeros | Sources/AppUpdater/Support/AppVersion.swift:15 | Leading zeros do not change the value of a digit string. |
| Digits.DigitsEnd | Sources/AppUpdater/Support/AppVersion.swift:22 | `\d+` takes the maximal digit run: every character up to the end is a digit and the next is not. |
| VersionPattern.LowersEnd | Sources/AppUpdater/Support/AppVersion.swift:22 | `[a-z]+` takes the maximal run of lowercase letters. |
| VersionPattern.PatchAt | Sources/AppUpdater/Support/AppVersion.swift:22 | The optional `([.](\d+))?` matches exactly when a dot and a digit follow, and then takes the whole digit run. |
| VersionPattern.SuffixAt | Sources/AppUpdater/Support/AppVersion.swift:22 | The optional `(-(?<suffix>[a-z]+))` matches exactly when `-` and a lowercase letter follow the version, and then takes the whole letter run without the `-`. |
| VersionPattern.BuildAt | Sources/AppUpdater/Support/AppVersion.swift:22 | The optional build group, `,` or `_` then `\d+`, matches exactly when `,` or `_` and a digit follow, and then takes the whole digit run. |
| VersionPattern.VersionEnd | Sources/AppUpdater/Support/AppVersion.swift:22 | The group `version` is non-empty and lies inside the text. |
| VersionPattern.MatchAt | Sources/AppUpdater/Support/AppVersion.swift:22 | A match at a start takes maximal major and minor digit runs around a dot, then the patch, suffix and build, each greedily and each where the previous part ended. |
| VersionPattern.FirstMatchFrom | Sources/AppUpdater/Support/AppVersion.swift:26-30 | A match found from a position starts at or after it, at a place where the pattern can start. |
| VersionPattern.FirstMatch | Sources/AppUpdater/Support/AppVersion.swift:26-30 | `.first` of the matches is a match of the pattern at its start position. |
| VersionPattern.FirstMatchFromSpec | Sources/AppUpdater/Support/AppVersion.swift:26-30 | The search finds nothing exactly when no position can start a match, and otherwise finds the leftmost such position. |
| VersionPattern.NoMatchIff | Sources/AppUpdater/Support/AppVersion.swift:22-34 | There is no match exactly when the text has no digit, dot, digit. |
| VersionPattern.FirstMatchIsLeftmost | Sources/AppUpdater/Support/AppVersion.swift:22-30 | The first match starts a digit run, and no digit, dot, digit occurs before its first dot. |
| VersionPattern.DottedGivesStart | Sources/AppUpdater/Support/AppVersion.swift:22 | Every digit, dot, digit in the text lies after a position where the pattern can start. |
| VersionPattern.MatchedVersionIsVersionText | Sources/AppUpdater/Support/AppVersion.swift:40-41 | The text of the group `version`, cut out of the input, is matched in full by the version part of the pattern. |
| VersionPattern.VersionEndAfter | Sources/AppUpdater/Support/AppVersion.swift:22 | A version text ended by neither a digit nor a dot is the whole group `version` of a match at the start. |
| VersionPattern.SuffixOf | Sources/AppUpdater/Support/AppVersion.swift:22 | A `-` then lowercase letters up to a non-letter is exactly the group `suffix`. |
| VersionPattern.BuildOf | Sources/AppUpdater/Support/AppVersion.swift:22 | A `,` or `_` then digits to the end is exactly the group `build`. |
| VersionPattern.MatchOfParts | Sources/AppUpdater/Support/AppVersion.swift:22-30 | A version text, an optional `-letters` and a `,`/`_` build to the end: the first match starts at 0 and each group captures its part. |
| VersionPattern.MatchOfVersionOnly | Sources/AppUpdater/Support/AppVersion.swift:22-30 | A version text followed by a character no optional group accepts: the match is the version text alone. |
| VersionPattern.SkipDigits | Sources/AppUpdater/Support/AppVersion.swift:22 | The loop stops at the end of the maximal digit run. |
| VersionPattern.SkipLowers | Sources/AppUpdater/Support/AppVersion.swift:22 | The loop stops at the end of the maximal lowercase run. |
| VersionPattern.ScanPatch | Sources/AppUpdater/Support/AppVersion.swift:22 | Scanning for the optional patch gives what the pattern's patch group matches. |
| VersionPattern.ScanSuffix | Sources/AppUpdater/Support/AppVersion.swift:22 | Scanning for the optional suffix gives what the pattern's suffix group matches. |
| VersionPattern.ScanBuild | Sources/AppUpdater/Support/AppVersion.swift:22 | Scanning for the optional build gives what the pattern's build group matches. |
| VersionPattern.MatchHere | Sources/AppUpdater/Support/AppVersion.swift:22 | Scanning from a start position gives the match of the pattern there. |
| VersionPattern.Scan | Sources/AppUpdater/Support/AppVersion.swift:26-34 | The scanner's loop returns the first match of the pattern, or none. |
| NumericCompare.CompareToken | Sources/AppUpdater/Support/AppVersion.swift:101 | Two tokens compare as the same exactly when they are equal. |
| NumericCompare.CompareTokensFlip | Sources/AppUpdater/Support/AppVersion.swift:101 | Swapping the operands of the comparison flips its result. |
| NumericCompare.CompareTokensSame | Sources/AppUpdater/Support/AppVersion.swift:101 | The comparison says same exactly when the token sequences are equal. |
| NumericCompare.CompareTokensTransitive | Sources/AppUpdater/Support/AppVersion.swift:101 | Ascending is transitive. |
| NumericCompare.Compare | Sources/AppUpdater/Support/AppVersion.swift:101 | `compare(_:options: .numeric)` says same exactly when the two strings have the same numbers and characters, and swapping the operands flips its result. |
| NumericCompare.Equal | Sources/AppUpdater/Support/AppVersion.swift:100-102 | `==` holds exactly when the two strings have the same numbers and characters, so `"1.01" == "1.1"`. |
| NumericCompare.Less | Sources/AppUpdater/Support/AppVersion.swift:104-106 | `a < b` exactly when comparing `b` with `a` gives descending. Its order properties are stated by the lemmas below. |
| NumericCompare.LessOrEqual | Sources/AppUpdater/Support/AppVersion.swift:108-110 | `<=` is `<` or `==`, and it is the negation of `>`. |
| NumericCompare.Greater | Sources/AppUpdater/Support/AppVersion.swift:112-114 | `a > b` exactly when `b < a`. |
| NumericCompare.GreaterOrEqual | Sources/AppUpdater/Support/AppVersion.swift:116-118 | `>=` is `>` or `==`, and `a >= b` exactly when `b <= a`. |
| NumericCompare.Trichotomy | Sources/AppUpdater/Support/AppVersion.swift:100-114 | Exactly one of `<`, `==`, `>` holds of any two strings. |
| NumericCompare.EqualReflexive | Sources/AppUpdater/Support/AppVersion.swift:100-106 | Every string is `==` to itself and not `<` itself. |
| NumericCompare.EqualSymmetric | Sources/AppUpdater/Support/AppVersion.swift:100-102 | `==` is symmetric. |
| NumericCompare.EqualTransitive | Sources/AppUpdater/Support/AppVersion.swift:100-102 | `==` is transitive. |
| NumericCompare.LessAsymmetric | Sources/AppUpdater/Support/AppVersion.swift:104-106 | `<` is asymmetric. |
| NumericCompare.LessTransitive | Sources/AppUpdater/Support/AppVersion.swift:104-106 | `<` is transitive. |
| NumericCompare.EqualSubstitutes | Sources/AppUpdater/Support/AppVersion.swift:100-106 | Strings that are `==` can replace each other on either side of `<` and `==`. |
| NumericCompare.TokensOfDigits | Sources/AppUpdater/Support/AppVersion.swift:101 | A non-empty digit string is a single number, its decimal value. |
| NumericCompare.DigitStringsByValue | Sources/AppUpdater/Support/AppVersion.swift:100-106 | Any two digit strings are `<` exactly when their values are, and `==` exactly when their values are equal. |
| NumericCompare.NumbersByValue | Sources/AppUpdater/Support/AppVersion.swift:104-106 | Digit runs compare by value: `"9" < "10"`. |
| NumericCompare.DottedNumbersByValue | Sources/AppUpdater/Support/AppVersion.swift:104-106 | `"1.9" < "1.10"`, where character codes alone would say the opposite. |
| NumericCompare.LeadingNumberDecides | Sources/AppUpdater/Support/AppVersion.swift:104-106 | `"1.0" < "2.0"`. |
| Versions.Init | Sources/AppUpdater/Support/AppVersion.swift:13-17 | `init` keeps the version and suffix. The build is present exactly when a build text was given and `Int(_:)` accepts it, and it is then the value `Int(_:)` gives, within the `Int` range. |
| Versions.From | Sources/AppUpdater/Support/AppVersion.swift:19-60 | `from` runs the scan and fills the version, build and suffix from the groups, giving what `Parse` defines. |
| Versions.ParseNoneIff | Sources/AppUpdater/Support/AppVersion.swift:19-34 | `from` is nil exactly when the text has no digit, dot, digit. |
| Versions.ParsedVersion | Sources/AppUpdater/Support/AppVersion.swift:36-42 | The version is the text of the group `version` of the leftmost match, a full version text, so never the empty default. |
| Versions.ParsedSuffix | Sources/AppUpdater/Support/AppVersion.swift:48-50 | The suffix is present exactly when the group `suffix` matched, and is then its non-empty lowercase letters. |
| Versions.ParsedBuild | Sources/AppUpdater/Support/AppVersion.swift:44-46 | The build is present only when the group `build` matched. It is then the decimal value of the digits, nil beyond `Int`. |
| Versions.ParseOfParts | Sources/AppUpdater/Support/AppVersion.swift:19-60 | A version text, an optional `-letters` and a `,`/`_` build: `from` gives exactly those parts, with the build dropped beyond `Int`. |
| Versions.ParseVersionSuffixBuild | Sources/AppUpdater/Support/AppVersion.swift:19-60 | `from(v + "-" + x + sep + d)` gives version `v`, suffix `x` and the value of `d` as the build. |
| Versions.ParseVersionThenOther | Sources/AppUpdater/Support/AppVersion.swift:19-60 | A version text followed by a character no optional group takes parses to that version alone. |
| Versions.ParseVersionThenBuild | Sources/AppUpdater/Support/AppVersion.swift:19-60 | `from(v + sep + d)` gives version `v`, no suffix and the value of `d` as the build. |
| Versions.ParseCommaBuild | Sources/AppUpdater/Support/AppVersion.swift:22 | `from("1.2,7")` has build 7: a comma also separates the build. |
| Versions.ParseLeadingZeros | Sources/AppUpdater/Support/AppVersion.swift:15 | `from("1.2_007")` has build 7. |
| Versions.ParseVersionOnly | Sources/AppUpdater/Support/AppVersion.swift:19-60 | `from("1.2.3")` is version `1.2.3` without build or suffix. |
| Versions.ParseSuffixAndBuild | Sources/AppUpdater/Support/AppVersion.swift:19-60 | `from("1.2.3-beta_45")` is version `1.2.3`, suffix `beta`, build 45. |
| Versions.ParseNoVersion | Sources/AppUpdater/Support/AppVersion.swift:32-34 | `from("no version here")` is nil. |
| Versions.VersionTextExamples | Sources/AppUpdater/Support/AppVersion.swift:22 | `1.2` and `1.2.3` are matched in full by the version part of the pattern. |
| Versions.FromCurrentVersion | Sources/AppUpdater/Support/AppVersion.swift:62-64 | `fromCurrentVersion` is `from(short + "_" + bundle)`, unwrapped. |
| Versions.CurrentVersionParses | Sources/AppUpdater/Support/AppVersion.swift:62-64 | A version-text short version and a digit bundle version always parse, so the unwrap cannot fail, and give the short version with the bundle number as the build. |
| Versions.Tagged | Sources/AppUpdater/Support/AppVersion.swift:66-72 | `tagged` is a prefix of the version. It is two characters shorter exactly when the version ends in `.0` and is longer than three characters, and otherwise it is the version. |
| Versions.TaggedExamples | Sources/AppUpdater/Support/AppVersion.swift:66-72 | `1.0` stays, `1.10.0` and `10.0` lose `.0`, and tagging twice strips twice: `10.0.0`, then `10.0`, then `10`. |
| Versions.ComputerReadable | Sources/AppUpdater/Support/AppVersion.swift:74-76 | `computerReadable` is the version, `_`, then the canonical decimal text of `build ?? 0`, which reads back as that number. |
| Versions.HumanReadable | Sources/AppUpdater/Support/AppVersion.swift:78-80 | `humanReadable` is the version, ` (`, the canonical decimal text of `build ?? 0`, then `)`; that text reads back as the number. |
| Versions.ReadableExamples | Sources/AppUpdater/Support/AppVersion.swift:74-80 | `humanReadable` of `2.0.0` without a build is `2.0.0 (0)`, and `computerReadable` of `1.2` with build 7 is `1.2_7`. |
| Versions.ComputerReadableRoundTrip | Sources/AppUpdater/Support/AppVersion.swift:74-76 | For `v = from(s)`, `from(v.computerReadable)` gives the same version, build `v.build ?? 0` and no suffix. |
| Versions.HumanReadableLosesBuild | Sources/AppUpdater/Support/AppVersion.swift:78-80 | For `v = from(s)`, `from(v.humanReadable)` keeps the version but has no build. |
| Versions.Less | Sources/AppUpdater/Support/AppVersion.swift:84-90 | `AppVersion.<`: true when the versions are numerically ascending, and otherwise `(lhs.build ?? 0) < (rhs.build ?? 0)`. Its properties are stated by the lemmas below. |
| Versions.Equal | Sources/AppUpdater/Support/AppVersion.swift:92-95 | `AppVersion.==`: numerically equal versions and equal builds as optionals. Its properties are stated by the lemmas below. |
| Versions.LessIrreflexive | Sources/AppUpdater/Support/AppVersion.swift:84-90 | No version is `<` itself. |
| Versions.LessOnEqualVersions | Sources/AppUpdater/Support/AppVersion.swift:84-90 | Between numerically equal versions, `<` is `(lhs.build ?? 0) < (rhs.build ?? 0)`. |
| Versions.LessComparesVersionsNumerically | Sources/AppUpdater/Support/AppVersion.swift:85 | Version `1.9` is `<` version `1.10`, and not the reverse. |
| Versions.EqualIsEquivalence | Sources/AppUpdater/Support/AppVersion.swift:92-95 | `==` is reflexive, symmetric and transitive. Equal values are not `<` either way. |
| Versions.SuffixIgnored | Sources/AppUpdater/Support/AppVersion.swift:84-95 | Changing the suffix changes neither `<` nor `==`. |
| Versions.LessNotAsymmetric | Sources/AppUpdater/Support/AppVersion.swift:84-90 | Version `2.0` build 1 and version `1.0` build 5 are each `<` the other. |
| Versions.EqualNilIsNotZero | Sources/AppUpdater/Support/AppVersion.swift:92-95 | For version `1.0`, no build and build 0 are neither `==` nor `<` either way. |
| Versions.IntendedLessIsStrictOrder | Sources/AppUpdater/Support/AppVersion.swift:84-90 | Versions first, then builds between equal versions: irreflexive, asymmetric and transitive. |
| Versions.IntendedTrichotomy | Sources/AppUpdater/Support/AppVersion.swift:84-95 | With both corrections, exactly one of `<`, `==`, `>` holds of any two versions. |

## Left out

- The regular expression engine and its `catch` branch (lines 57-58) are left out. The pattern is a fixed literal that compiles, and a scanner proved equal to the pattern's first greedy match takes the engine's place.
- Unicode is left out. Strings are sequences of characters, and `\d` stands for the ASCII digits, not every Unicode decimal digit.
- Text with a Swift `Character` of more than one UTF-16 unit, such as `"\r\n"` (one `Character`, two units), is not modelled faithfully. The search range (line 29) has length `string.count`, which counts `Character`s, while `NSRange` counts UTF-16 units, so Swift does not search the last units of such text. The model searches the whole text: `from("a\r\n1.2")` is nil in Swift but parses in the model, and `from("notes\r\n1.2.34")` gives `1.2.3` in Swift but `1.2.34` in the model. `tagged` (line 67) likewise counts `Character`s, where the model counts characters.
- Foundation's `.numeric` comparison (lines 101-117) is modelled as the natural order described above, not Foundation's full rules. It ignores leading zeros, so `"1.01" == "1.1"`. Its handling of locales and of non-ASCII digits is not modelled.
- The reads of `Executable.shortVersion` and `Executable.bundleVersion` in `fromCurrentVersion` (line 63) are host bundle metadata, so they become parameters. The force-unwrap becomes the precondition that the text parses.
- The default empty `version` (line 36) is not a branch of the model. `Versions.ParsedVersion` proves that a successful `from` always captures a full version text.
- Swift's `Comparable` protocol derives `>`, `<=` and `>=` on `AppVersion` from `<` alone: `a > b` is `b < a`, `a <= b` is `!(b < a)`, and `a >= b` is `!(a < b)`. Those derived operators are not modelled. Because `<` is not asymmetric (see Findings), the derived `<=` is not `<` or `==`.
- The class's reference identity is not modelled, because its fields are only set in `init`. The values are modelled instead.

## Findings

| source | as written | input that shows it | evidently intended | confidence | as-written member | corrected member |
|---|---|---|---|---|---|---|
| Sources/AppUpdater/Support/AppVersion.swift:84-90 | when the left version is not smaller, `<` returns the comparison of the builds, even when the left version is greater | version `2.0` build 1 and version `1.0` build 5: each is `<` the other, so a newer version can be taken for an older one | compare builds only when the versions are equal | not executed | Versions.LessNotAsymmetric | Versions.IntendedLessIsStrictOrder |
| Sources/AppUpdater/Support/AppVersion.swift:92-95 | `==` compares the builds as optionals while `<` reads a missing build as 0 | version `1.0` without build and version `1.0` with build 0: none of `<`, `==`, `>` holds | read a missing build as 0 in `==` too, so exactly one of `<`, `==`, `>` holds | not executed | Versions.EqualNilIsNotZero | Versions.IntendedTrichotomy |
