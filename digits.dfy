/** Decimal digits and the two conversions between Swift's `Int` and its decimal
    text: string interpolation `"\(n)"` and the failable initializer `Int(_:)`. */
module Digits {
  import opened Optional

  /** The range of Swift's 64-bit `Int`. */
  const IntMin: int := -0x8000_0000_0000_0000
  const IntMax: int := 0x7FFF_FFFF_FFFF_FFFF

  predicate IsDigit(c: char) {
    '0' <= c <= '9'
  }

  predicate AllDigits(d: string) {
    forall k :: 0 <= k < |d| ==> IsDigit(d[k])
  }

  function DigitValue(c: char): (n: nat)
    requires IsDigit(c)
    ensures n < 10
  {
    c as int - '0' as int
  }

  function DigitChar(n: nat): (c: char)
    requires n < 10
    ensures IsDigit(c) && DigitValue(c) == n
  {
    ('0' as int + n) as char
  }

  /** End of the maximal run of digits that starts at `i`
      (`i` itself when `s[i]` is not a digit). */
  function DigitsEnd(s: string, i: nat): (j: nat)
    requires i <= |s|
    ensures i <= j <= |s|
    ensures forall k :: i <= k < j ==> IsDigit(s[k])
    ensures j == |s| || !IsDigit(s[j])
    decreases |s| - i
  {
    if i < |s| && IsDigit(s[i]) then DigitsEnd(s, i + 1) else i
  }

  /** A maximal digit run is determined by where it starts. */
  lemma DigitsEndUnique(s: string, i: nat, j: nat)
    requires i <= j <= |s|
    requires forall k :: i <= k < j ==> IsDigit(s[k])
    requires j == |s| || !IsDigit(s[j])
    ensures DigitsEnd(s, i) == j
  {
  }

  /** Value of a string of decimal digits, most significant digit first;
      leading zeros contribute nothing and the empty string is 0. */
  function Value(d: string): (n: nat)
    requires AllDigits(d)
  {
    if d == [] then 0 else Value(d[..|d| - 1]) * 10 + DigitValue(d[|d| - 1])
  }

  lemma {:induction false} ValueOfZeros(z: string, d: string)
    requires forall k :: 0 <= k < |z| ==> z[k] == '0'
    requires AllDigits(d)
    ensures AllDigits(z + d) && Value(z + d) == Value(d)
    decreases |d|
  {
    if d == [] {
      assert z + d == z;
      ValueOfAllZeros(z);
    } else {
      var zd := z + d;
      assert zd[..|zd| - 1] == z + d[..|d| - 1];
      ValueOfZeros(z, d[..|d| - 1]);
    }
  }

  lemma {:induction false} ValueOfAllZeros(z: string)
    requires forall k :: 0 <= k < |z| ==> z[k] == '0'
    ensures AllDigits(z) && Value(z) == 0
    decreases |z|
  {
    if z != [] {
      ValueOfAllZeros(z[..|z| - 1]);
    }
  }

  /** Decimal text of a natural number as Swift prints an `Int`: digits only,
      no leading zero, and reading it back gives the number. */
  function NatText(n: nat): (d: string)
    ensures |d| > 0 && AllDigits(d)
    ensures d[0] != '0' || d == "0"
    ensures Value(d) == n
    decreases n
  {
    if n < 10 then [DigitChar(n)]
    else
      var d := NatText(n / 10) + [DigitChar(n % 10)];
      assert d[..|d| - 1] == NatText(n / 10);
      d
  }

  /** Decimal text of an `Int`, as string interpolation `"\(i)"` produces it. */
  function IntText(i: int): (d: string)
    ensures |d| > 0
    ensures i >= 0 <==> AllDigits(d)
    ensures i < 0 <==> d[0] == '-'
    ensures i >= 0 ==> (d[0] != '0' || d == "0") && Value(d) == i
    ensures i < 0 ==> |d| > 1 && AllDigits(d[1..]) && d[1] != '0' && Value(d[1..]) == -i
  {
    if i < 0 then
      var d := "-" + NatText(-i);
      assert !IsDigit(d[0]) && d[1..] == NatText(-i);
      d
    else NatText(i)
  }

  /** Swift's `Int(_ description: String)` on ASCII text: an optional `+` or
      `-`, then one or more decimal digits and nothing else, and a value that
      fits in 64 bits; anything else gives nil. */
  function ParseInt(t: string): (r: Option<int>)
    ensures r.Some? ==> IntMin <= r.value <= IntMax
    ensures r.Some? ==> |t| > 0 && (AllDigits(t) || (t[0] in "+-" && |t| > 1 && AllDigits(t[1..])))
    ensures |t| > 0 && AllDigits(t) ==>
              r == if Value(t) <= IntMax then Some(Value(t)) else None
    ensures |t| > 1 && t[0] == '+' && AllDigits(t[1..]) ==>
              r == if Value(t[1..]) <= IntMax then Some(Value(t[1..])) else None
    ensures |t| > 1 && t[0] == '-' && AllDigits(t[1..]) ==>
              r == if -(Value(t[1..]) as int) >= IntMin then Some(-(Value(t[1..]) as int)) else None
  {
    if |t| > 0 && (t[0] == '+' || t[0] == '-') then
      Magnitude(t[1..], t[0] == '-')
    else
      assert t[0..] == t;
      Magnitude(t, false)
  }

  /** The signed value of the unsigned digits `d`, when they are digits and it fits. */
  function Magnitude(d: string, negative: bool): (r: Option<int>)
  {
    if |d| == 0 || !AllDigits(d) then None
    else
      var v: int := if negative then -(Value(d) as int) else Value(d);
      if IntMin <= v <= IntMax then Some(v) else None
  }

  /** `Int("\(i)") == i`: parsing inverts printing for every `Int`. */
  lemma ParseIntText(i: int)
    ensures IntMin <= i <= IntMax ==> ParseInt(IntText(i)) == Some(i)
  {
    var d := IntText(i);
    if i < 0 {
      assert d[1..] == NatText(-i);
    }
  }
}
