/** Decimal numerals, as strconv.Atoi reads them and fmt writes them. */
module Numerals {
  import opened Wrappers

  predicate IsDigit(c: char) {
    '0' <= c <= '9'
  }

  function DigitValue(c: char): (d: nat)
    requires IsDigit(c)
    ensures d < 10
  {
    (c as int) - ('0' as int)
  }

  function DigitChar(d: nat): (c: char)
    requires d < 10
    ensures IsDigit(c) && DigitValue(c) == d
  {
    (('0' as int) + d) as char
  }

  function Value(digits: string): nat
    requires forall c <- digits :: IsDigit(c)
  {
    if digits == "" then 0 else 10 * Value(digits[..|digits| - 1]) + DigitValue(digits[|digits| - 1])
  }

  // %d of a number that is not negative.
  function Numeral(n: nat): (s: string)
    ensures s != "" && forall c <- s :: IsDigit(c)
  {
    if n < 10 then [DigitChar(n)] else Numeral(n / 10) + [DigitChar(n % 10)]
  }

  /** A numeral has its digits in order, the last one first to go. */
  lemma NumeralDigits(n: nat, d: nat)
    requires d < 10
    ensures Numeral(d) == ["0123456789"[d]]
    ensures n > 0 ==> Numeral(10 * n + d) == Numeral(n) + ["0123456789"[d]]
  {
    DigitIs(d);
    assert (10 * n + d) / 10 == n && (10 * n + d) % 10 == d;
  }

  lemma DigitIs(d: nat)
    requires d < 10
    ensures DigitChar(d) == "0123456789"[d]
  {
  }

  lemma {:induction false} NumeralValue(n: nat)
    ensures Value(Numeral(n)) == n
  {
    if n >= 10 {
      var s := Numeral(n);
      assert s[..|s| - 1] == Numeral(n / 10);
      NumeralValue(n / 10);
    } else {
      assert Numeral(n)[..0] == "";
    }
  }

  lemma NumeralInjective(m: nat, n: nat)
    ensures Numeral(m) == Numeral(n) <==> m == n
  {
    NumeralValue(m);
    NumeralValue(n);
  }

  const MAX_INT := 0x7fff_ffff_ffff_ffff

  // strconv.Atoi: an optional sign and at least one digit, in 64 bits.
  function Atoi(s: string): Option<int> {
    var negative := s != "" && s[0] == '-';
    var digits := if s != "" && s[0] in {'-', '+'} then s[1..] else s;
    if digits == "" || exists c <- digits :: !IsDigit(c) then None else
      var n: int := Value(digits);
      if negative then (if n <= MAX_INT + 1 then Some(-n) else None)
      else if n <= MAX_INT then Some(n) else None
  }

  lemma AtoiNumeral(n: nat)
    requires n <= MAX_INT
    ensures Atoi(Numeral(n)) == Some(n)
  {
    NumeralValue(n);
    assert Numeral(n)[0] in Numeral(n);
  }

  /** A sign in front changes the sign, and what does not fit in 64 bits is not read. */
  lemma AtoiSigned(n: nat)
    ensures Atoi(Numeral(n)) == if n <= 0x7fff_ffff_ffff_ffff then Some(n) else None
    ensures Atoi("+" + Numeral(n)) == if n <= 0x7fff_ffff_ffff_ffff then Some(n) else None
    ensures Atoi("-" + Numeral(n)) == if n <= 0x8000_0000_0000_0000 then Some(-(n as int)) else None
  {
    NumeralValue(n);
    Unsigned(Numeral(n));
    Signed('+', Numeral(n));
    Signed('-', Numeral(n));
  }

  lemma Unsigned(digits: string)
    requires digits != "" && forall c <- digits :: IsDigit(c)
    ensures Atoi(digits) == if Value(digits) <= MAX_INT then Some(Value(digits) as int) else None
  {
    assert digits[0] in digits;
  }

  lemma Signed(sign: char, digits: string)
    requires sign in {'+', '-'} && digits != "" && forall c <- digits :: IsDigit(c)
    ensures Atoi([sign] + digits) ==
            if sign == '+' then (if Value(digits) <= MAX_INT then Some(Value(digits) as int) else None)
            else if Value(digits) <= MAX_INT + 1 then Some(-(Value(digits) as int)) else None
  {
    assert ([sign] + digits)[1..] == digits;
  }
}
