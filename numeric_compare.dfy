/** The `String` operators `==`, `<`, `<=`, `>`, `>=` that AppVersion.swift
    declares in an extension of `String`: each is one test on the result of
    `lhs.compare(rhs, options: .numeric)`. Foundation's numeric comparison is
    modelled as a natural order: the text is cut into tokens, each maximal
    digit run becoming one number compared by value, every other character
    compared by its code, and the token sequences are compared
    lexicographically. A digit run sits where its digits sit among the other
    characters, that is at the code of '0'. */
module NumericCompare {
  import opened Digits

  /** Foundation's `ComparisonResult`. */
  datatype Ordering = Ascending | Same | Descending {
    function Flip(): Ordering {
      match this
      case Ascending => Descending
      case Same => Same
      case Descending => Ascending
    }
  }

  datatype Token = Num(n: nat) | Sym(c: char)

  /** Cuts `s` into numbers and single characters. */
  function Tokens(s: string): seq<Token>
    decreases |s|
  {
    if s == [] then []
    else if IsDigit(s[0]) then
      var j := DigitsEnd(s, 0);
      [Num(Value(s[..j]))] + Tokens(s[j..])
    else
      [Sym(s[0])] + Tokens(s[1..])
  }

  function CompareInt(x: int, y: int): (o: Ordering)
    ensures o == Same <==> x == y
    ensures o == Ascending <==> x < y
  {
    if x < y then Ascending else if x == y then Same else Descending
  }

  /** Rank of a token among the characters: a number ranks as a digit. */
  function Rank(t: Token): int {
    match t
    case Num(_) => '0' as int
    case Sym(c) => c as int
  }

  /** Tokens by rank; a number before a character of equal rank; numbers by value. */
  function CompareToken(x: Token, y: Token): (o: Ordering)
    ensures o == Same <==> x == y
  {
    if Rank(x) != Rank(y) then CompareInt(Rank(x), Rank(y))
    else
      match (x, y)
      case (Num(a), Num(b)) => CompareInt(a, b)
      case (Num(_), Sym(_)) => Ascending
      case (Sym(_), Num(_)) => Descending
      case (Sym(_), Sym(_)) => Same
  }

  lemma CompareTokenFlip(x: Token, y: Token)
    ensures CompareToken(x, y) == CompareToken(y, x).Flip()
  {
  }

  lemma CompareTokenTransitive(x: Token, y: Token, z: Token)
    requires CompareToken(x, y) == Ascending && CompareToken(y, z) == Ascending
    ensures CompareToken(x, z) == Ascending
  {
  }

  /** Lexicographic comparison of token sequences; a proper prefix comes first. */
  function CompareTokens(a: seq<Token>, b: seq<Token>): Ordering
    decreases |a|
  {
    if a == [] && b == [] then Same
    else if a == [] then Ascending
    else if b == [] then Descending
    else
      match CompareToken(a[0], b[0])
      case Same => CompareTokens(a[1..], b[1..])
      case o => o
  }

  /** `lhs.compare(rhs, options: .numeric)`. */
  function Compare(a: string, b: string): (o: Ordering)
    ensures o == Same <==> Tokens(a) == Tokens(b)
    ensures o == CompareTokens(Tokens(b), Tokens(a)).Flip()
  {
    CompareTokensSame(Tokens(a), Tokens(b));
    CompareTokensFlip(Tokens(a), Tokens(b));
    CompareTokens(Tokens(a), Tokens(b))
  }

  lemma {:induction false} CompareTokensFlip(a: seq<Token>, b: seq<Token>)
    ensures CompareTokens(a, b) == CompareTokens(b, a).Flip()
    decreases |a|
  {
    if a != [] && b != [] {
      CompareTokenFlip(a[0], b[0]);
      if a[0] == b[0] {
        CompareTokensFlip(a[1..], b[1..]);
      }
    }
  }

  lemma {:induction false} CompareTokensSame(a: seq<Token>, b: seq<Token>)
    ensures CompareTokens(a, b) == Same <==> a == b
    decreases |a|
  {
    if a != [] && b != [] && a[0] == b[0] {
      CompareTokensSame(a[1..], b[1..]);
      if a[1..] == b[1..] {
        assert a == [a[0]] + a[1..] && b == [b[0]] + b[1..];
      }
    }
  }

  lemma {:induction false} CompareTokensTransitive(a: seq<Token>, b: seq<Token>, c: seq<Token>)
    requires CompareTokens(a, b) == Ascending && CompareTokens(b, c) == Ascending
    ensures CompareTokens(a, c) == Ascending
    decreases |a|
  {
    if a != [] && c != [] {
      var ab, bc := CompareToken(a[0], b[0]), CompareToken(b[0], c[0]);
      if ab == Same && bc == Same {
        CompareTokensTransitive(a[1..], b[1..], c[1..]);
      } else if ab == Ascending && bc == Ascending {
        CompareTokenTransitive(a[0], b[0], c[0]);
      }
    }
  }

  /** `lhs == rhs` within the module: `compare` returns `.orderedSame`. */
  function Equal(a: string, b: string): (r: bool)
    ensures r <==> Tokens(a) == Tokens(b)
  {
    Compare(a, b) == Same
  }

  /** `lhs < rhs`: `.orderedAscending`. */
  function Less(a: string, b: string): (r: bool)
    ensures r <==> Compare(b, a) == Descending
  {
    Compare(a, b) == Ascending
  }

  /** `lhs <= rhs`: `.orderedAscending` or `.orderedSame`. */
  function LessOrEqual(a: string, b: string): (r: bool)
    ensures r <==> Less(a, b) || Equal(a, b)
    ensures r <==> !Greater(a, b)
  {
    Compare(a, b) == Ascending || Compare(a, b) == Same
  }

  /** `lhs > rhs`: `.orderedDescending`. */
  function Greater(a: string, b: string): (r: bool)
    ensures r <==> Less(b, a)
  {
    CompareTokensFlip(Tokens(a), Tokens(b));
    Compare(a, b) == Descending
  }

  /** `lhs >= rhs`: `.orderedDescending` or `.orderedSame`. */
  function GreaterOrEqual(a: string, b: string): (r: bool)
    ensures r <==> Greater(a, b) || Equal(a, b)
    ensures r <==> LessOrEqual(b, a)
  {
    CompareTokensFlip(Tokens(a), Tokens(b));
    Compare(a, b) == Descending || Compare(a, b) == Same
  }

  /** Exactly one of `<`, `==`, `>` holds of any two strings. */
  lemma Trichotomy(a: string, b: string)
    ensures Less(a, b) || Equal(a, b) || Greater(a, b)
    ensures !(Less(a, b) && Equal(a, b)) && !(Less(a, b) && Greater(a, b)) && !(Equal(a, b) && Greater(a, b))
  {
  }

  /** Every string is numerically equal to itself. */
  lemma EqualReflexive(a: string)
    ensures Equal(a, a) && !Less(a, a)
  {
    CompareTokensSame(Tokens(a), Tokens(a));
  }

  lemma EqualSymmetric(a: string, b: string)
    ensures Equal(a, b) <==> Equal(b, a)
  {
    CompareTokensFlip(Tokens(a), Tokens(b));
  }

  lemma LessAsymmetric(a: string, b: string)
    ensures Less(a, b) ==> !Less(b, a)
  {
    CompareTokensFlip(Tokens(a), Tokens(b));
  }

  lemma LessTransitive(a: string, b: string, c: string)
    requires Less(a, b) && Less(b, c)
    ensures Less(a, c)
  {
    CompareTokensTransitive(Tokens(a), Tokens(b), Tokens(c));
  }

  /** Strings with the same tokens are interchangeable on either side of `<`. */
  lemma EqualSubstitutes(a: string, a': string, b: string)
    requires Equal(a, a')
    ensures Less(a, b) <==> Less(a', b)
    ensures Less(b, a) <==> Less(b, a')
    ensures Equal(a, b) <==> Equal(a', b)
  {
  }

  lemma TokensOfNine()
    ensures Tokens("9") == [Num(9)]
  {
    DigitsEndUnique("9", 0, 1);
  }

  lemma TokensOfTen()
    ensures Tokens("10") == [Num(10)]
  {
    DigitsEndUnique("10", 0, 2);
    assert "10"[..2] == "10" && "10"[2..] == [];
    assert "10"[..1] == "1" && Value("10") == 10;
  }

  /** A leading "1." is the number 1 and the character '.'. */
  lemma TokensAfterOneDot(rest: string)
    ensures Tokens("1." + rest) == [Num(1), Sym('.')] + Tokens(rest)
  {
    var s := "1." + rest;
    DigitsEndUnique(s, 0, 1);
    assert s[..1] == "1" && Value("1") == 1;
    assert s[1..][0] == '.' && !IsDigit('.');
    assert s[1..][1..] == rest;
  }

  /** A non-empty digit string is one number token. */
  lemma TokensOfDigits(d: string)
    requires |d| > 0 && AllDigits(d)
    ensures Tokens(d) == [Num(Value(d))]
  {
    DigitsEndUnique(d, 0, |d|);
    assert d[..|d|] == d && d[|d|..] == [];
  }

  /** Digit strings compare by their values, whatever their lengths and
      leading zeros. */
  lemma DigitStringsByValue(a: string, b: string)
    requires |a| > 0 && AllDigits(a) && |b| > 0 && AllDigits(b)
    ensures Less(a, b) <==> Value(a) < Value(b)
    ensures Equal(a, b) <==> Value(a) == Value(b)
  {
    TokensOfDigits(a);
    TokensOfDigits(b);
  }

  /** Digit runs compare by value: "9" < "10". */
  lemma NumbersByValue()
    ensures Less("9", "10")
  {
    TokensOfNine();
    TokensOfTen();
  }

  /** Hence "1.9" < "1.10", where character codes alone would say otherwise. */
  lemma DottedNumbersByValue()
    ensures Less("1.9", "1.10")
  {
    TokensAfterOneDot("9");
    TokensAfterOneDot("10");
    assert "1." + "9" == "1.9" && "1." + "10" == "1.10";
    TokensOfNine();
    TokensOfTen();
  }

  /** Leading numbers decide: "1.0" < "2.0". */
  lemma LeadingNumberDecides()
    ensures Less("1.0", "2.0")
  {
    DigitsEndUnique("1.0", 0, 1);
    DigitsEndUnique("2.0", 0, 1);
    assert Tokens("1.0")[0] == Num(1);
    assert Tokens("2.0")[0] == Num(2);
  }

  /** Numeric equality is transitive. */
  lemma EqualTransitive(a: string, b: string, c: string)
    requires Equal(a, b) && Equal(b, c)
    ensures Equal(a, c)
  {
  }
}
