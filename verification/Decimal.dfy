/** Decimal numerals, as printed by "%u" and read back by strtoul. */
module Decimal {

  predicate IsDigit(c: char) { '0' <= c <= '9' }

  predicate AllDigits(s: string) { forall c :: c in s ==> IsDigit(c) }

  function DigitOf(c: char): (d: nat)
    ensures d < 10
  {
    if IsDigit(c) then c as int - '0' as int else 0
  }

  function DigitChar(d: nat): (c: char)
    requires d < 10
    ensures IsDigit(c) && DigitOf(c) == d
  {
    ('0' as int + d) as char
  }

  function Value(s: string): nat {
    if s == [] then 0 else Value(s[..|s| - 1]) * 10 + DigitOf(s[|s| - 1])
  }

  function Print(n: nat): (s: string)
    ensures s != [] && AllDigits(s) && Value(s) == n
    ensures s[0] == '0' <==> n == 0
  {
    if n < 10 then
      var s := [DigitChar(n)];
      assert s[..0] == [];
      s
    else
      var s := Print(n / 10) + [DigitChar(n % 10)];
      assert s[..|s| - 1] == Print(n / 10);
      s
  }

  function StripZeros(s: string): (r: string)
    ensures |r| <= |s| && r == s[|s| - |r|..]
    ensures r == [] || r[0] != '0'
  {
    if s == [] || s[0] != '0' then s else StripZeros(s[1..])
  }

  lemma {:induction false} LeadingZero(s: string)
    requires s != [] && s[0] == '0'
    ensures Value(s) == Value(s[1..])
  {
    if |s| > 1 {
      LeadingZero(s[..|s| - 1]);
      assert s[1..][..|s| - 2] == s[..|s| - 1][1..];
    } else {
      assert s[..0] == [] && s[1..] == [];
    }
  }

  lemma {:induction false} StripZerosValue(s: string)
    ensures Value(StripZeros(s)) == Value(s)
  {
    if s != [] && s[0] == '0' {
      LeadingZero(s);
      StripZerosValue(s[1..]);
    }
  }

  /** A numeral without leading zeros is determined by its value. */
  lemma {:induction false} ValueInjective(x: string, y: string)
    requires AllDigits(x) && AllDigits(y)
    requires x == [] || x[0] != '0'
    requires y == [] || y[0] != '0'
    requires Value(x) == Value(y)
    ensures x == y
  {
    if x != [] && y == [] {
      PositiveValue(x);
    } else if x == [] && y != [] {
      PositiveValue(y);
    } else if x != [] {
      var x', y' := x[..|x| - 1], y[..|y| - 1];
      var dx, dy := DigitOf(x[|x| - 1]), DigitOf(y[|y| - 1]);
      assert (Value(x') - Value(y')) * 10 == dy - dx;
      ValueInjective(x', y');
      assert x == x' + [x[|x| - 1]] && y == y' + [y[|y| - 1]];
    }
  }

  lemma {:induction false} PositiveValue(x: string)
    requires AllDigits(x) && x != [] && x[0] != '0'
    ensures Value(x) > 0
  {
    if |x| > 1 {
      PositiveValue(x[..|x| - 1]);
    }
  }

  /** Equal values are equal numerals up to leading zeros. */
  lemma SameValue(x: string, y: string)
    requires AllDigits(x) && AllDigits(y)
    ensures Value(x) == Value(y) <==> StripZeros(x) == StripZeros(y)
  {
    StripZerosValue(x);
    StripZerosValue(y);
    if Value(x) == Value(y) {
      ValueInjective(StripZeros(x), StripZeros(y));
    }
  }

  lemma PrintInjective(m: nat, n: nat)
    ensures Print(m) == Print(n) <==> m == n
  {
  }

  /** The place value of digits, read from the front. */
  lemma PlaceValue(s: string, c: char)
    requires '0' <= c <= '9'
    ensures Value([]) == 0 && Value(s + [c]) == 10 * Value(s) + (c as int - 48)
  {
    assert (s + [c])[..|s|] == s;
  }
}
