/** Decimal numbers as text, the order of strings, and splitting at a separator. */
module Texts {

  // ----- Decimal numbers -----

  predicate IsDigit(c: char) {
    '0' <= c <= '9'
  }

  predicate AllDigits(s: string) {
    forall i | 0 <= i < |s| :: IsDigit(s[i])
  }

  function Digit(d: nat): (c: char)
    requires d < 10
    ensures IsDigit(c) && DigitValue(c) == d
  {
    (d + 48) as char
  }

  function DigitValue(c: char): nat
    requires IsDigit(c)
  {
    c as int - 48
  }

  // Models `std::to_string` of a non-negative number.
  function Decimal(n: nat): (s: string)
    ensures |s| > 0 && AllDigits(s)
  {
    if n < 10 then [Digit(n)] else Decimal(n / 10) + [Digit(n % 10)]
  }

  // Models `std::stoll` of a run of digits.
  function DigitsValue(s: string): nat
    requires AllDigits(s)
  {
    if s == [] then 0 else DigitsValue(s[..|s| - 1]) * 10 + DigitValue(s[|s| - 1])
  }

  lemma {:induction false} DecimalValue(n: nat)
    ensures DigitsValue(Decimal(n)) == n
  {
    var s := Decimal(n);
    if n >= 10 {
      DecimalValue(n / 10);
      assert s[..|s| - 1] == Decimal(n / 10);
    } else {
      assert s[..|s| - 1] == [];
    }
  }

  // Models `std::to_string` of a signed number.
  function Integer(i: int): string {
    if i < 0 then ['-'] + Decimal(-i) else Decimal(i)
  }

  lemma IntegerInjective(i: int, j: int)
    requires Integer(i) == Integer(j)
    ensures i == j
  {
    DecimalValue(if i < 0 then -i else i);
    DecimalValue(if j < 0 then -j else j);
    assert Integer(i)[0] == Integer(j)[0];
    if i < 0 {
      assert Integer(i)[1..] == Decimal(-i);
      assert Integer(j)[1..] == Decimal(-j);
    }
  }

  lemma IntegerChars(i: int, c: char)
    requires !IsDigit(c) && c != '-'
    ensures c !in Integer(i)
  {
  }

  // ----- Separators -----

  // Text before the first separator is determined by the whole.
  lemma SplitUnique(a: string, a': string, c: char, rest: string, rest': string)
    requires c !in a && c !in a'
    requires a + [c] + rest == a' + [c] + rest'
    ensures a == a' && rest == rest'
  {
    var s := a + [c] + rest;
    assert s[|a|] == c && s[|a'|] == c;
    assert |a| == |a'|;
    assert a == s[..|a|] && a' == s[..|a'|];
    assert rest == s[|a| + 1..] && rest' == s[|a'| + 1..];
  }

  // ----- Lexicographic order -----

  // Models `operator<` of strings.
  predicate TextLess(a: string, b: string) {
    if b == [] then false
    else if a == [] then true
    else if a[0] != b[0] then a[0] < b[0]
    else TextLess(a[1..], b[1..])
  }

  // After n equal characters a ends, or has the smaller one.
  predicate SmallerAt(a: string, b: string, n: nat) {
    n <= |a| && n < |b| && a[..n] == b[..n] && (n == |a| || a[n] < b[n])
  }

  lemma {:induction false} TextLessIff(a: string, b: string)
    ensures TextLess(a, b) <==> exists n: nat :: SmallerAt(a, b, n)
  {
    if a == [] || b == [] || a[0] != b[0] {
      if TextLess(a, b) {
        assert SmallerAt(a, b, 0);
      }
    } else {
      TextLessIff(a[1..], b[1..]);
      if n: nat :| SmallerAt(a[1..], b[1..], n) {
        assert a[..n + 1] == [a[0]] + a[1..][..n] && b[..n + 1] == [b[0]] + b[1..][..n];
        assert SmallerAt(a, b, n + 1);
      }
      if n: nat :| SmallerAt(a, b, n) {
        assert n > 0;
        assert a[1..][..n - 1] == a[..n][1..] && b[1..][..n - 1] == b[..n][1..];
        assert SmallerAt(a[1..], b[1..], n - 1);
      }
    }
  }

  lemma {:induction false} TextLessIrreflexive(a: string)
    ensures !TextLess(a, a)
  {
    if a != [] {
      TextLessIrreflexive(a[1..]);
    }
  }

  lemma {:induction false} TextLessTotal(a: string, b: string)
    ensures a == b || TextLess(a, b) || TextLess(b, a)
  {
    if a != [] && b != [] {
      TextLessTotal(a[1..], b[1..]);
      assert a == [a[0]] + a[1..] && b == [b[0]] + b[1..];
    }
  }

  lemma {:induction false} TextLessTransitive(a: string, b: string, c: string)
    requires TextLess(a, b) && TextLess(b, c)
    ensures TextLess(a, c)
  {
    if a != [] && a[0] == b[0] && b[0] == c[0] {
      TextLessTransitive(a[1..], b[1..], c[1..]);
    }
  }
}
