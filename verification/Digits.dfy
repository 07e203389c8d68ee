/** Numerals: the text of a number in a base, and the number of a text. */
module Digits {

  const DIGITS := "0123456789abcdef"

  predicate Base(b: nat)
  {
    2 <= b <= 16
  }

  function Repeat(n: int, c: char): (s: string)
    ensures |s| == if n > 0 then n else 0
    ensures forall i :: 0 <= i < |s| ==> s[i] == c
    decreases n
  {
    if n <= 0 then "" else [c] + Repeat(n - 1, c)
  }

  lemma {:induction false} RepeatSnoc(n: nat, c: char)
    ensures Repeat(n + 1, c) == Repeat(n, c) + [c]
  {
    if n > 0 {
      RepeatSnoc(n - 1, c);
    }
  }

  /** The digits of n, most significant first. */
  function Numeral(n: nat, base: nat): (s: string)
    requires Base(base)
    ensures |s| >= 1
  {
    (if n < base then "" else Numeral(n / base, base)) + [DIGITS[n % base]]
  }

  /** The numeral padded on the left to a minimal width. */
  function Padded(n: nat, base: nat, width: int, padc: char): string
    requires Base(base)
  {
    var s := Numeral(n, base);
    Repeat(width - |s|, padc) + s
  }

  /** The value of a digit or letter as strtol reads it, -1 for other characters. */
  function DigitValue(c: char): int
  {
    if '0' <= c <= '9' then c as int - '0' as int
    else if 'a' <= c <= 'z' then c as int - 'a' as int + 10
    else if 'A' <= c <= 'Z' then c as int - 'A' as int + 10
    else -1
  }

  /** A digit of the base; a terminator or any other character ends the number. */
  predicate IsDigitOf(c: char, base: int)
  {
    0 <= DigitValue(c) < base
  }

  predicate IsNumeral(s: string, base: int)
  {
    forall i :: 0 <= i < |s| ==> 0 <= DigitValue(s[i]) < base
  }

  /** The number that a text of digits denotes. */
  function Value(s: string, base: int): nat
    requires IsNumeral(s, base)
  {
    if s == "" then 0
    else Value(s[..|s| - 1], base) * base + DigitValue(s[|s| - 1])
  }

  lemma DigitOf(d: nat)
    requires d < 16
    ensures DigitValue(DIGITS[d]) == d
  {
  }

  lemma SnocValue(s: string, c: char, base: int)
    requires IsNumeral(s, base) && 0 <= DigitValue(c) < base
    ensures IsNumeral(s + [c], base) && Value(s + [c], base) == Value(s, base) * base + DigitValue(c)
  {
    assert (s + [c])[..|s|] == s;
  }

  lemma DivMod(n: nat, base: nat)
    requires base >= 1
    ensures n / base >= 0 && 0 <= n % base < base && (n / base) * base + n % base == n
  {
  }

  lemma NumeralSplits(num: nat, base: nat)
    requires Base(base)
    ensures num / base >= 0 && 0 <= num % base < base
    ensures num >= base ==> num / base < num
    ensures Numeral(num, base) == (if num < base then "" else Numeral(num / base, base)) + [DIGITS[num % base]]
  {
    DivMod(num, base);
  }

  /** Reading a numeral back yields the number. */
  lemma {:induction false} NumeralValue(n: nat, base: nat)
    requires Base(base)
    ensures IsNumeral(Numeral(n, base), base) && Value(Numeral(n, base), base) == n
  {
    var q, r := n / base, n % base;
    DivMod(n, base);
    DigitOf(r);
    if n < base {
      SmallDivMod(n, base);
      assert Numeral(n, base) == "" + [DIGITS[r]];
      SnocValue("", DIGITS[r], base);
    } else {
      NumeralValue(q, base);
      assert Numeral(n, base) == Numeral(q, base) + [DIGITS[r]];
      SnocValue(Numeral(q, base), DIGITS[r], base);
    }
  }

  lemma SmallDivMod(n: nat, base: nat)
    requires n < base
    ensures n / base == 0 && n % base == n
  {
  }

  /** A numeral has no superfluous zero in front. */
  lemma {:induction false} NumeralLeads(n: nat, base: nat)
    requires Base(base)
    ensures Numeral(n, base)[0] == '0' <==> n == 0
  {
    DigitOf(n % base);
    if n >= base {
      NumeralLeads(n / base, base);
      QuotientPositive(n, base);
    }
  }

  lemma QuotientPositive(n: nat, base: nat)
    requires Base(base) && n >= base
    ensures n / base >= 1
  {
    assert n == (n / base) * base + n % base;
  }

  /** Zeros in front do not change the value. */
  lemma {:induction false} ZerosInFront(k: nat, s: string, base: nat)
    requires Base(base) && IsNumeral(s, base)
    ensures IsNumeral(Repeat(k, '0') + s, base) && Value(Repeat(k, '0') + s, base) == Value(s, base)
    decreases |s|, k
  {
    var t := Repeat(k, '0') + s;
    if s != "" {
      ZerosInFront(k, s[..|s| - 1], base);
      assert t[..|t| - 1] == Repeat(k, '0') + s[..|s| - 1];
    } else if k > 0 {
      RepeatSnoc(k - 1, '0');
      ZerosInFront(k - 1, "", base);
      assert t[..|t| - 1] == Repeat(k - 1, '0') + "";
    }
  }

  // ----- What digits and numerals are -----

  const LOWER := "0123456789abcdefghijklmnopqrstuvwxyz"
  const UPPER := "0123456789ABCDEFGHIJKLMNOPQRSTUVWXYZ"

  /** The digits of the bases up to 36, of either case. */
  lemma SmallDigits(d: nat)
    requires d < 36
    ensures DigitValue(LOWER[d]) == d && (LOWER[d] < 'A' || LOWER[d] > 'Z')
  {
  }

  lemma CapitalDigits(d: nat)
    requires d < 36
    ensures DigitValue(UPPER[d]) == d && (UPPER[d] < 'a' || UPPER[d] > 'z')
  {
  }

  /** Other characters are no digits. */
  lemma OnlyDigits(c: char)
    ensures DigitValue(c) == -1 || (0 <= DigitValue(c) < 36 && (c == LOWER[DigitValue(c)] || c == UPPER[DigitValue(c)]))
  {
    var d := DigitValue(c);
    if 0 <= d < 36 {
      SmallDigits(d);
      CapitalDigits(d);
      hide LOWER, UPPER;
      SameDigit(c, LOWER[d], UPPER[d]);
    }
  }

  lemma SameDigit(c: char, lower: char, upper: char)
    requires 0 <= DigitValue(c) == DigitValue(lower) == DigitValue(upper) < 36
    requires lower < 'A' || lower > 'Z'
    requires upper < 'a' || upper > 'z'
    ensures c == lower || c == upper
  {
  }

  /** The letters of a numeral are small. */
  lemma {:induction false} NumeralIsLower(n: nat, base: nat)
    requires Base(base)
    ensures forall i :: 0 <= i < |Numeral(n, base)| ==> Numeral(n, base)[i] in LOWER[..base]
  {
    NumeralSplits(n, base);
    DigitIsLower(n % base, base);
    hide DIGITS, LOWER, Numeral;
    if n >= base {
      NumeralIsLower(n / base, base);
    }
  }

  lemma DigitIsLower(d: nat, base: nat)
    requires d < base && Base(base)
    ensures DIGITS[d] in LOWER[..base]
  {
    assert DIGITS[d] == LOWER[d] == LOWER[..base][d];
  }

  function Power(base: nat, k: nat): nat
  {
    if k == 0 then 1 else base * Power(base, k - 1)
  }

  /** The value is positional: the first digit counts the power of the base that
      belongs to the digits behind it. */
  lemma {:induction false} ValueCons(c: char, s: string, base: nat)
    requires IsNumeral(s, base) && IsDigitOf(c, base)
    ensures IsNumeral([c] + s, base)
    ensures Value([c] + s, base) == DigitValue(c) * Power(base, |s|) + Value(s, base)
  {
    assert Value("", base) == 0;
    hide DigitValue, Power, Value;
    var t := [c] + s;
    if s == "" {
      PowerZero(base);
      SnocValue("", c, base);
      assert t == "" + [c];
    } else {
      var n := |s| - 1;
      var front, last := s[..n], s[n];
      assert forall i :: 0 <= i < n ==> front[i] == s[i];
      ValueCons(c, front, base);
      SnocValue(front, last, base);
      SnocValue([c] + front, last, base);
      assert s == front + [last] && t == ([c] + front) + [last];
      PowerNext(base, n);
      Horner(DigitValue(c), Power(base, n), Value(front, base), base);
    }
  }

  lemma PowerZero(base: nat)
    ensures Power(base, 0) == 1
  {
  }

  lemma PowerNext(base: nat, k: nat)
    ensures Power(base, k + 1) == base * Power(base, k)
  {
  }

  lemma Horner(d: nat, power: nat, v: nat, base: nat)
    ensures (d * power + v) * base == d * (base * power) + v * base
  {
    assert d * power * base == d * (base * power);
  }

  /** A number fills its field from the right, and the rest is padding. */
  lemma PaddedField(n: nat, base: nat, width: int, padc: char)
    requires Base(base)
    ensures var s, t := Numeral(n, base), Padded(n, base, width, padc);
            && |t| == (if width > |s| then width else |s|) && t[|t| - |s|..] == s
            && forall i :: 0 <= i < |t| - |s| ==> t[i] == padc
  {
  }

  /** The text of a numeral in capitals. */
  function Capitals(s: string): (r: string)
    ensures |r| == |s| && forall i :: 0 <= i < |s| ==> r[i] == Capital(s[i])
  {
    seq(|s|, i requires 0 <= i < |s| => Capital(s[i]))
  }

  function Capital(c: char): char
  {
    if 'a' <= c <= 'z' then (c as int - 'a' as int + 'A' as int) as char else c
  }

  lemma {:induction false} CapitalsValue(s: string, base: int)
    requires IsNumeral(s, base)
    ensures IsNumeral(Capitals(s), base) && Value(Capitals(s), base) == Value(s, base)
  {
    if s != "" {
      CapitalsValue(s[..|s| - 1], base);
      assert Capitals(s)[..|s| - 1] == Capitals(s[..|s| - 1]);
    }
  }
}
