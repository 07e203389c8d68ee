/** The number reader strtol, and the proof that it inverts the digit printer. */
module Strtol {
  import opened Digits

  /** The character at a position; behind the end stands the terminator. */
  function CharAt(s: string, i: nat): char
  {
    if i < |s| then s[i] else '\0'
  }

  /** Two's complement truncation to a 64-bit signed number. */
  function WrapLong(x: int): (v: int)
    ensures -0x8000_0000_0000_0000 <= v < 0x8000_0000_0000_0000
    ensures -0x8000_0000_0000_0000 <= x < 0x8000_0000_0000_0000 ==> v == x
  {
    (x + 0x8000_0000_0000_0000) % 0x1_0000_0000_0000_0000 - 0x8000_0000_0000_0000
  }

  predicate IsBlank(c: char)
  {
    c == ' ' || c == '\t'
  }

  function SkipBlanks(s: string, i: nat): (j: nat)
    requires i <= |s|
    ensures i <= j <= |s| && !IsBlank(CharAt(s, j))
    decreases |s| - i
  {
    if IsBlank(CharAt(s, i)) then SkipBlanks(s, i + 1) else i
  }

  /** The end of the longest run of digits from i on. */
  function RunEnd(s: string, i: nat, base: int): (j: nat)
    requires i <= |s|
    ensures i <= j <= |s| && IsNumeral(s[i..j], base) && !IsDigitOf(CharAt(s, j), base)
    decreases |s| - i
  {
    if IsDigitOf(CharAt(s, i), base) then RunEnd(s, i + 1, base) else i
  }

  datatype Reading = Reading(value: int, end: nat)

  /** Where the digits start and in which base they are read. */
  function Prefix(s: string, i: nat, base: int): (r: (int, nat))
    requires i <= |s|
    ensures i <= r.1 <= |s|
  {
    if (base == 0 || base == 16) && CharAt(s, i) == '0' && CharAt(s, i + 1) == 'x' then (16, i + 2)
    else if base == 0 && CharAt(s, i) == '0' then (8, i + 1)
    else if base == 0 then (10, i)
    else (base, i)
  }

  function Unsigned(s: string, i: nat, base: int): Reading
    requires i <= |s|
  {
    var p := Prefix(s, i, base);
    var end := RunEnd(s, p.1, p.0);
    Reading(WrapLong(Value(s[p.1..end], p.0)), end)
  }

  /** What strtol reads from s. */
  function Read(s: string, base: int): Reading
  {
    var i := SkipBlanks(s, 0);
    if CharAt(s, i) == '+' then Unsigned(s, i + 1, base)
    else if CharAt(s, i) == '-' then
      var r := Unsigned(s, i + 1, base);
      Reading(WrapLong(-r.value), r.end)
    else Unsigned(s, i, base)
  }

  method StrToL(s: string, base: int) returns (result: int, endptr: nat)
    ensures result == Read(s, base).value && endptr == Read(s, base).end
  {
    hide Value, IsNumeral, WrapLong, DigitValue, Prefix, RunEnd;
    var i := 0;
    while CharAt(s, i) == ' ' || CharAt(s, i) == '\t'
      invariant i <= |s| && SkipBlanks(s, 0) == SkipBlanks(s, i)
      decreases |s| - i
    {
      i := i + 1;
    }
    var neg := false;
    if CharAt(s, i) == '+' {
      i := i + 1;
    } else if CharAt(s, i) == '-' {
      i, neg := i + 1, true;
    }
    ghost var start := i;
    var digitBase;
    digitBase, i := ReadPrefix(s, i, base);
    var val;
    val, endptr := ReadDigits(s, i, digitBase);
    assert Unsigned(s, start, base) == Reading(val, endptr);
    result := if neg then WrapLong(-val) else val;
  }

  method ReadPrefix(s: string, start: nat, base0: int) returns (base: int, i: nat)
    requires start <= |s|
    ensures (base, i) == Prefix(s, start, base0)
  {
    base, i := base0, start;
    if (base == 0 || base == 16) && CharAt(s, i) == '0' && CharAt(s, i + 1) == 'x' {
      i, base := i + 2, 16;
    } else if base == 0 && CharAt(s, i) == '0' {
      i, base := i + 1, 8;
    } else if base == 0 {
      base := 10;
    }
  }

  method ReadDigits(s: string, start: nat, base: int) returns (val: int, i: nat)
    requires start <= |s|
    ensures i == RunEnd(s, start, base) && val == WrapLong(Value(s[start..i], base))
  {
    val, i := 0, start;
    while true
      invariant start <= i <= |s| && RunEnd(s, start, base) == RunEnd(s, i, base)
      invariant IsNumeral(s[start..i], base) && val == WrapLong(Value(s[start..i], base))
      decreases |s| - i
    {
      var dig := ClassifyDigit(CharAt(s, i));
      if dig < 0 || dig >= base {
        break;
      }
      ExtendRun(s, start, i, base);
      i, val := i + 1, WrapLong(val * base + dig);
    }
  }

  /** The digit that a character stands for, or -1 where the loop is left. */
  method ClassifyDigit(c: char) returns (dig: int)
    ensures dig == DigitValue(c)
  {
    if '0' <= c <= '9' {
      dig := c as int - '0' as int;
    } else if 'a' <= c <= 'z' {
      dig := c as int - 'a' as int + 10;
    } else if 'A' <= c <= 'Z' {
      dig := c as int - 'A' as int + 10;
    } else {
      dig := -1;
    }
  }

  lemma ExtendRun(s: string, start: nat, i: nat, base: int)
    requires start <= i < |s| && IsNumeral(s[start..i], base) && IsDigitOf(s[i], base)
    ensures IsNumeral(s[start..i + 1], base)
    ensures WrapLong(WrapLong(Value(s[start..i], base)) * base + DigitValue(s[i]))
         == WrapLong(Value(s[start..i + 1], base))
  {
    assert s[start..i + 1] == s[start..i] + [s[i]];
    SnocValue(s[start..i], s[i], base);
    WrapStep(Value(s[start..i], base), base, DigitValue(s[i]));
  }

  /** Truncating after every digit or only at the end gives the same number. */
  lemma WrapStep(v: int, base: int, dig: int)
    ensures WrapLong(WrapLong(v) * base + dig) == WrapLong(v * base + dig)
  {
    var q := (v + 0x8000_0000_0000_0000) / 0x1_0000_0000_0000_0000;
    assert WrapLong(v) == v - q * 0x1_0000_0000_0000_0000;
    assert (v - q * 0x1_0000_0000_0000_0000) * base == v * base - (q * base) * 0x1_0000_0000_0000_0000;
    WrapPeriodic(v * base + dig, q * base);
  }

  lemma WrapPeriodic(x: int, k: int)
    ensures WrapLong(x - k * 0x1_0000_0000_0000_0000) == WrapLong(x)
  {
  }

  /** Wrapping changes a number by a multiple of 2^64. */
  lemma WrapLongShifts(x: int)
    ensures exists k: int :: WrapLong(x) == x + k * 0x1_0000_0000_0000_0000
  {
    var q := (x + 0x8000_0000_0000_0000) / 0x1_0000_0000_0000_0000;
    assert WrapLong(x) == x + (-q) * 0x1_0000_0000_0000_0000;
  }

  // ----- What a text is read as -----

  datatype Sign = Unmarked | Plus | Minus

  function SignText(sign: Sign): string
  {
    match sign
    case Unmarked => ""
    case Plus => "+"
    case Minus => "-"
  }

  function WithSign(sign: Sign, n: nat): int
  {
    if sign.Minus? then 0 - n else n
  }

  predicate Begins(s: string, c: char)
  {
    s != "" && s[0] == c
  }

  /** The prefix makes digits of digitBase out of what follows it, for a caller who
      asks for base. */
  predicate Selects(prefix: string, text: string, base: int, digitBase: int)
  {
    || (prefix == "0x" && (base == 0 || base == 16) && digitBase == 16)
    || (prefix == "0" && base == 0 && digitBase == 8 && !Begins(text, 'x'))
    || (prefix == "" && base == 0 && digitBase == 10 && !Begins(text, '0'))
    || (prefix == "" && base == digitBase != 0 && !(base == 16 && Begins(text, '0') && Begins(text[1..], 'x')))
  }

  /** A text is read as the value of its digits, up to the first character that is no
      digit: blanks and a sign may stand in front, and a prefix selects the base. */
  lemma ReadsText(blanks: string, sign: Sign, prefix: string, digits: string, rest: string, base: int, digitBase: int)
    requires forall i :: 0 <= i < |blanks| ==> blanks[i] == ' ' || blanks[i] == '\t'
    requires Selects(prefix, digits + rest, base, digitBase) && IsNumeral(digits, digitBase)
    requires rest == "" || !IsDigitOf(rest[0], digitBase)
    requires sign.Unmarked? && prefix == "" && digits == "" ==> rest == "" || rest[0] !in " \t+-"
    ensures var s := blanks + (SignText(sign) + (prefix + (digits + rest)));
            Read(s, base) == Reading(WrapLong(WithSign(sign, Value(digits, digitBase))), |s| - |rest|)
  {
    hide Value, WrapLong, Read, Unsigned;
    var body := prefix + (digits + rest);
    var s := blanks + (SignText(sign) + body);
    var i, j := |blanks|, |blanks| + |SignText(sign)|;
    assert s[i..] == SignText(sign) + body && s[j..] == body;
    BodyBegins(sign, prefix, digits, rest, base, digitBase);
    ReadsBody(s, j, prefix, digits, rest, base, digitBase);
    hide Selects;
    assert CharAt(s, i) == CharAt(s[i..], 0);
    BlanksSkipped(s, 0, i);
    ReadsSigned(s, i, sign, Value(digits, digitBase), |s| - |rest|, base);
  }

  lemma ReadsSigned(s: string, i: nat, sign: Sign, n: nat, end: nat, base: int)
    requires i + |SignText(sign)| <= |s| && SkipBlanks(s, 0) == i
    requires (CharAt(s, i) == '+' <==> sign.Plus?) && (CharAt(s, i) == '-' <==> sign.Minus?)
    requires Unsigned(s, i + |SignText(sign)|, base) == Reading(WrapLong(n), end)
    ensures Read(s, base) == Reading(WrapLong(WithSign(sign, n)), end)
  {
    hide Unsigned, WrapLong, SkipBlanks;
    WrapNegated(n);
  }

  /** What stands behind the blanks is no blank, and a sign only if there is one. */
  lemma BodyBegins(sign: Sign, prefix: string, digits: string, rest: string, base: int, digitBase: int)
    requires Selects(prefix, digits + rest, base, digitBase) && IsNumeral(digits, digitBase)
    requires sign.Unmarked? && prefix == "" && digits == "" ==> rest == "" || rest[0] !in " \t+-"
    ensures var c := CharAt(SignText(sign) + (prefix + (digits + rest)), 0);
            c != ' ' && c != '\t' && (c == '+' <==> sign.Plus?) && (c == '-' <==> sign.Minus?)
  {
  }

  lemma {:induction false} BlanksSkipped(s: string, i: nat, j: nat)
    requires i <= j <= |s| && (forall k :: i <= k < j ==> s[k] == ' ' || s[k] == '\t')
    requires CharAt(s, j) != ' ' && CharAt(s, j) != '\t'
    ensures SkipBlanks(s, i) == j
    decreases j - i
  {
    if i < j {
      BlanksSkipped(s, i + 1, j);
    }
  }

  lemma WrapNegated(x: int)
    ensures WrapLong(-WrapLong(x)) == WrapLong(-x)
  {
    WrapStep(x, -1, 0);
  }

  /** The text from position i on. */
  lemma ReadsBody(s: string, i: nat, prefix: string, digits: string, rest: string, base: int, digitBase: int)
    requires i <= |s| && s[i..] == prefix + (digits + rest)
    requires Selects(prefix, digits + rest, base, digitBase) && IsNumeral(digits, digitBase)
    requires rest == "" || !IsDigitOf(rest[0], digitBase)
    ensures Unsigned(s, i, base) == Reading(WrapLong(Value(digits, digitBase)), |s| - |rest|)
  {
    hide Value, WrapLong, Selects, Prefix, RunEnd, IsNumeral, DigitValue;
    var j := i + |prefix|;
    var end := j + |digits|;
    BodyParts(s, i, prefix, digits, rest);
    PrefixSelects(s, i, prefix, digits + rest, base, digitBase);
    DigitsRun(s, j, digits, rest, digitBase);
  }

  lemma BodyParts(s: string, i: nat, prefix: string, digits: string, rest: string)
    requires i <= |s| && s[i..] == prefix + (digits + rest)
    ensures var j := i + |prefix|;
            var end := j + |digits|;
            end <= |s| && |s| - |rest| == end && s[j..] == digits + rest && s[j..end] == digits && s[end..] == rest
  {
    var j := i + |prefix|;
    assert s[j..] == s[i..][|prefix|..] == digits + rest;
    assert s[j..][..|digits|] == digits;
  }

  lemma DigitsRun(s: string, j: nat, digits: string, rest: string, base: int)
    requires j <= |s| && s[j..] == digits + rest && IsNumeral(digits, base)
    requires rest == "" || !IsDigitOf(rest[0], base)
    ensures RunEnd(s, j, base) == j + |digits|
  {
    hide DigitValue, RunEnd;
    var end := j + |digits|;
    forall k | j <= k < end
      ensures IsDigitOf(s[k], base)
    {
      assert s[k] == s[j..][k - j] == digits[k - j];
    }
    assert end < |s| ==> s[end] == s[j..][|digits|] == rest[0];
    NoDigitAtEnd(base);
    RunIs(s, j, end, base);
  }

  lemma NoDigitAtEnd(base: int)
    ensures !IsDigitOf('\0', base)
  {
  }

  lemma PrefixSelects(s: string, i: nat, prefix: string, text: string, base: int, digitBase: int)
    requires i <= |s| && s[i..] == prefix + text && Selects(prefix, text, base, digitBase)
    ensures Prefix(s, i, base) == (digitBase, i + |prefix|)
  {
    assert CharAt(s, i) == CharAt(prefix + text, 0) && CharAt(s, i + 1) == CharAt(prefix + text, 1);
  }

  lemma {:induction false} RunIs(s: string, i: nat, j: nat, base: int)
    requires i <= j <= |s| && (forall k :: i <= k < j ==> IsDigitOf(s[k], base)) && !IsDigitOf(CharAt(s, j), base)
    ensures RunEnd(s, i, base) == j
    decreases j - i
  {
    if i < j {
      RunIs(s, i + 1, j, base);
    }
  }

  // ----- Reading back what was printed -----

  /** Blanks, a sign, zeros and a numeral are read back completely, modulo 2^64 in
      the range of a long, in every base that the printer knows. */
  lemma ReadsBack(blanks: string, sign: Sign, zeros: nat, n: nat, base: nat)
    requires Base(base) && forall i :: 0 <= i < |blanks| ==> blanks[i] == ' ' || blanks[i] == '\t'
    ensures var s := blanks + (SignText(sign) + (Repeat(zeros, '0') + Numeral(n, base)));
            Read(s, base) == Reading(WrapLong(WithSign(sign, n)), |s|)
  {
    var digits := Repeat(zeros, '0') + Numeral(n, base);
    NumeralValue(n, base);
    ZerosInFront(zeros, Numeral(n, base), base);
    hide Read, Numeral, Repeat, Value, WrapLong;
    PlainDigits(blanks, sign, digits, base);
  }

  lemma PlainDigits(blanks: string, sign: Sign, digits: string, base: nat)
    requires Base(base) && IsNumeral(digits, base) && digits != ""
    requires forall i :: 0 <= i < |blanks| ==> blanks[i] == ' ' || blanks[i] == '\t'
    ensures var s := blanks + (SignText(sign) + digits);
            Read(s, base) == Reading(WrapLong(WithSign(sign, Value(digits, base))), |s|)
  {
    hide Read, Value, WrapLong;
    NoPrefix(digits, base);
    ReadsText(blanks, sign, "", digits, "", base, base);
    assert "" + (digits + "") == digits;
  }

  lemma NoPrefix(digits: string, base: nat)
    requires Base(base) && IsNumeral(digits, base)
    ensures Selects("", digits + "", base, base)
  {
    assert digits + "" == digits;
    assert DigitValue('x') == 33;
    assert |digits| > 1 ==> digits[1..][0] == digits[1];
  }

  /** The prefix 0x selects base 16, whether the caller asked for it or left the
      base open. */
  lemma ReadsBackPrefixed(zeros: nat, n: nat, base: nat)
    requires base == 0 || base == 16
    ensures var s := "0x" + (Repeat(zeros, '0') + Numeral(n, 16));
            Read(s, base) == Reading(WrapLong(n), |s|)
  {
    var digits := Repeat(zeros, '0') + Numeral(n, 16);
    NumeralValue(n, 16);
    ZerosInFront(zeros, Numeral(n, 16), 16);
    hide Read, Numeral, Repeat, Value, WrapLong;
    ReadsText("", Unmarked, "0x", digits, "", base, 16);
    assert "" + ("" + ("0x" + (digits + ""))) == "0x" + digits;
  }

  /** With an open base a leading zero selects base 8. */
  lemma ReadsBackOctal(sign: Sign, n: nat)
    ensures var s := SignText(sign) + ("0" + Numeral(n, 8));
            Read(s, 0) == Reading(WrapLong(WithSign(sign, n)), |s|)
  {
    NumeralValue(n, 8);
    hide Numeral, Read, WrapLong, Value;
    OpenOctal(sign, Numeral(n, 8));
  }

  /** With an open base a decimal numeral is read as such. */
  lemma ReadsBackDecimal(sign: Sign, n: nat)
    ensures var s := SignText(sign) + Numeral(n, 10);
            Read(s, 0) == Reading(WrapLong(WithSign(sign, n)), |s|)
  {
    NumeralValue(n, 10);
    NumeralLeads(n, 10);
    if n > 0 {
      hide Numeral, Read, WrapLong, Value;
      OpenDecimal(sign, Numeral(n, 10));
    } else {
      assert Numeral(0, 10) == "0" && "0" + "" == "0";
      hide Numeral, Read, WrapLong;
      OpenOctal(sign, "");
    }
  }

  lemma OpenOctal(sign: Sign, digits: string)
    requires IsNumeral(digits, 8)
    ensures var s := SignText(sign) + ("0" + digits);
            Read(s, 0) == Reading(WrapLong(WithSign(sign, Value(digits, 8))), |s|)
  {
    hide Read, Value, WrapLong;
    assert DigitValue('x') == 33;
    assert digits + "" == digits;
    ReadsText("", sign, "0", digits, "", 0, 8);
    assert "" + (SignText(sign) + ("0" + (digits + ""))) == SignText(sign) + ("0" + digits);
  }

  lemma OpenDecimal(sign: Sign, digits: string)
    requires IsNumeral(digits, 10) && digits != "" && digits[0] != '0'
    ensures var s := SignText(sign) + digits;
            Read(s, 0) == Reading(WrapLong(WithSign(sign, Value(digits, 10))), |s|)
  {
    hide Read, Value, WrapLong;
    assert digits + "" == digits;
    ReadsText("", sign, "", digits, "", 0, 10);
    assert "" + (SignText(sign) + ("" + (digits + ""))) == SignText(sign) + digits;
  }

  /** Capital letters are digits as well. */
  lemma ReadsBackCapitals(sign: Sign, n: nat, base: nat)
    requires Base(base)
    ensures var s := SignText(sign) + Capitals(Numeral(n, base));
            Read(s, base) == Reading(WrapLong(WithSign(sign, n)), |s|)
  {
    var digits := Capitals(Numeral(n, base));
    NumeralValue(n, base);
    CapitalsValue(Numeral(n, base), base);
    hide Read, Numeral, Capitals, Value, WrapLong;
    PlainDigits("", sign, digits, base);
    assert "" + (SignText(sign) + digits) == SignText(sign) + digits;
  }

  /** The comment above strtol also promises the prefix "0X". It is not
      recognised: only the zero is read. */
  lemma UpperCasePrefixUnread(rest: string, base: nat)
    requires base == 0 || base == 16
    ensures Read("0X" + rest, base) == Reading(0, 1)
  {
    assert DigitValue('X') == 33 && DigitValue('0') == 0;
    var tail := "X" + rest;
    hide Read;
    if base == 0 {
      assert "" + tail == tail;
      ReadsText("", Unmarked, "0", "", tail, 0, 8);
      assert "" + ("" + ("0" + ("" + tail))) == "0X" + rest;
    } else {
      SnocValue("", '0', 16);
      assert "" + ['0'] == "0" && ("0" + tail)[1..] == tail;
      ReadsText("", Unmarked, "", "0", tail, 16, 16);
      assert "" + ("" + ("" + ("0" + tail))) == "0X" + rest;
    }
  }
}
