/** Decimal rendering of integers, as JavaScript template literals print them, and
    reading them back with `parseInt`. */
module Decimals {
  import opened Options
  import opened Text

  function Digit(d: nat): char
    requires d < 10
  {
    ['0', '1', '2', '3', '4', '5', '6', '7', '8', '9'][d]
  }

  function Decimal(n: nat): (s: string)
    ensures s != []
  {
    if n < 10 then [Digit(n)] else Decimal(n / 10) + [Digit(n % 10)]
  }

  function DecimalInt(n: int): string {
    if n < 0 then ['-'] + Decimal(-n) else Decimal(n)
  }

  predicate IsDigit(c: char) {
    '0' <= c <= '9'
  }

  predicate AllDigits(s: string) {
    forall i :: 0 <= i < |s| ==> IsDigit(s[i])
  }

  function DigitsPrefix(s: string): (r: string)
    ensures r <= s && AllDigits(r)
    ensures AllDigits(s) ==> r == s
  {
    if s == [] || !IsDigit(s[0]) then [] else [s[0]] + DigitsPrefix(s[1..])
  }

  function Value(digits: string): nat
    requires AllDigits(digits)
  {
    if digits == [] then 0
    else 10 * Value(digits[..|digits| - 1]) + (digits[|digits| - 1] as int - '0' as int)
  }

  function ParseDigits(s: string): Option<int> {
    var digits := DigitsPrefix(s);
    if digits == [] then None else Some(Value(digits))
  }

  /** `parseInt(s, 10)`: leading blanks and a sign, then as many digits as there are;
      the rest is ignored. */
  function ParseInt(s: string): Option<int> {
    ParseNumber(TrimStart(s))
  }

  function ParseNumber(t: string): Option<int> {
    if t != [] && t[0] == '-' then
      match ParseDigits(t[1..])
      case None => None
      case Some(n) => Some(-n)
    else if t != [] && t[0] == '+' then ParseDigits(t[1..])
    else ParseDigits(t)
  }

  lemma {:induction false} DecimalDigits(n: nat)
    ensures AllDigits(Decimal(n)) && Value(Decimal(n)) == n
  {
    var d := n % 10;
    assert Digit(d) as int - '0' as int == d;
    if n >= 10 {
      DecimalDigits(n / 10);
      var s := Decimal(n);
      assert s[..|s| - 1] == Decimal(n / 10);
    } else {
      assert Decimal(n)[..0] == [];
    }
  }

  lemma ParseDigitsOfDecimal(n: nat)
    ensures ParseDigits(Decimal(n)) == Some(n) && IsDigit(Decimal(n)[0])
  {
    DecimalDigits(n);
  }

  lemma ParseNegative(s: string, digits: string, n: int)
    requires s == ['-'] + digits && ParseDigits(digits) == Some(-n)
    ensures ParseInt(s) == Some(n)
  {
    assert s[1..] == digits;
  }

  lemma ParsePositive(digits: string, n: nat)
    requires digits != [] && IsDigit(digits[0]) && ParseDigits(digits) == Some(n)
    ensures ParseInt(digits) == Some(n)
  {
    assert TrimStart(digits) == digits;
  }

  lemma ParseNatDecimal(n: nat)
    ensures ParseInt(Decimal(n)) == Some(n)
  {
    ParseDigitsOfDecimal(n);
    ParsePositive(Decimal(n), n);
  }

  /** What is printed is read back. */
  lemma ParseDecimal(n: int)
    ensures ParseInt(DecimalInt(n)) == Some(n)
  {
    if n < 0 {
      NegativeText(n, -n, DecimalInt(n), Decimal(-n));
    } else {
      NatText(n, DecimalInt(n));
    }
  }

  lemma NegativeText(n: int, m: nat, s: string, digits: string)
    requires n + m == 0 && digits == Decimal(m) && s == ['-'] + digits
    ensures ParseInt(s) == Some(n)
  {
    ParseDigitsOfDecimal(m);
    ParseNegative(s, digits, n);
  }

  lemma NatText(n: nat, s: string)
    requires s == DecimalInt(n)
    ensures ParseInt(s) == Some(n)
  {
    assert s == Decimal(n);
    ParseNatDecimal(n);
  }

  lemma DecimalUnique(i: nat, j: nat)
    requires Decimal(i) == Decimal(j)
    ensures i == j
  {
    DecimalDigits(i);
    DecimalDigits(j);
  }

  lemma {:induction false} PrefixStops(digits: string, rest: string)
    requires AllDigits(digits) && (rest == [] || !IsDigit(rest[0]))
    ensures DigitsPrefix(digits + rest) == digits
  {
    if digits == [] {
      assert digits + rest == rest;
    } else {
      assert (digits + rest)[1..] == digits[1..] + rest;
      PrefixStops(digits[1..], rest);
    }
  }

  lemma DigitsRead(digits: string, rest: string)
    requires digits != [] && AllDigits(digits) && (rest == [] || !IsDigit(rest[0]))
    ensures ParseDigits(digits + rest) == Some(Value(digits)) && IsDigit((digits + rest)[0])
  {
    PrefixStops(digits, rest);
    assert IsDigit(digits[0]);
  }

  lemma ParseTrimmed(before: string, s: string)
    requires AllBlank(before) && s != [] && !Blank(s[0])
    ensures ParseInt(before + s) == ParseInt(s)
  {
    TrimStartSkips(before, s);
  }

  lemma ParsePlus(s: string, digits: string, n: int)
    requires s == ['+'] + digits && ParseDigits(digits) == Some(n)
    ensures ParseInt(s) == Some(n)
  {
    assert s[1..] == digits;
  }

  /** Blanks before a number and whatever follows its digits do not matter, */
  lemma ParseReadsNumber(before: string, digits: string, rest: string, n: int)
    requires AllBlank(before) && digits != [] && AllDigits(digits) && n == Value(digits)
    requires rest == [] || !IsDigit(rest[0])
    ensures ParseInt(before + (digits + rest)) == Some(n)
  {
    DigitsRead(digits, rest);
    ParseTrimmed(before, digits + rest);
    ParsePositive(digits + rest, n);
  }

  /** and it may have a plus sign */
  lemma ParseReadsPlus(before: string, number: string, n: int)
    requires AllBlank(before) && ParseDigits(number) == Some(n)
    ensures ParseInt(before + (['+'] + number)) == Some(n)
  {
    ParseTrimmed(before, ['+'] + number);
    ParsePlus(['+'] + number, number, n);
  }

  /** or a minus sign. */
  lemma ParseReadsMinus(before: string, number: string, n: int)
    requires AllBlank(before) && ParseDigits(number) == Some(-n)
    ensures ParseInt(before + (['-'] + number)) == Some(n)
  {
    ParseTrimmed(before, ['-'] + number);
    ParseNegative(['-'] + number, number, n);
  }
}
