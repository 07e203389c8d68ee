/** Printing and reading together: which printed numbers strtol reads back. */
module RoundTrip {
  import opened Digits
  import opened Directives
  import opened FormatSpec
  import opened Printfmt
  import opened Strtol
  import opened Wrappers

  // ----- Which printed numbers are read back -----

  /** How many pad characters stand in front of the digits of n. */
  function Pads(n: nat, base: nat, width: int): nat
    requires Base(base)
  {
    |Repeat(width - |Numeral(n, base)|, '0')|
  }

  lemma PaddedReadsBack(n: nat, base: nat, width: int, padc: char)
    requires Base(base) && (padc == '0' || padc == ' ')
    ensures var s := Padded(n, base, width, padc);
            Read(s, base) == Reading(WrapLong(n), |s|)
  {
    PaddedIs(n, base, width, padc);
    hide Read, Numeral, WrapLong, Padded, Pads;
    var pads := Pads(n, base, width);
    if padc == '0' {
      ReadsBack("", Unmarked, pads, n, base);
      assert "" + ("" + (Repeat(pads, '0') + Numeral(n, base))) == Repeat(pads, '0') + Numeral(n, base);
    } else {
      ReadsBack(Repeat(pads, ' '), Unmarked, 0, n, base);
      assert "" + (Repeat(0, '0') + Numeral(n, base)) == Numeral(n, base);
    }
  }

  lemma PaddedIs(n: nat, base: nat, width: int, padc: char)
    requires Base(base)
    ensures Padded(n, base, width, padc) == Repeat(Pads(n, base, width), padc) + Numeral(n, base)
  {
    hide Numeral;
    assert Repeat(width - |Numeral(n, base)|, padc) == Repeat(Pads(n, base, width), padc);
  }

  /** When the text of a signed number can be read back: zeros may fill the
      width, spaces only in front of a number without a sign. Dashes, which the
      "-" flag puts in front of the digits, are taken for signs. */
  predicate Readable(v: int, width: int, padc: char)
  {
    var pads := Pads(if v < 0 then -v else v, 10, width);
    || pads == 0
    || padc == '0'
    || (padc == ' ' && v >= 0)
    || (padc == '-' && v == 0 && pads == 1)
  }

  predicate PadCharacter(c: char)
  {
    c == ' ' || c == '0' || c == '-'
  }

  /** strtol in base 10 inverts the signed conversion exactly when the text is
      readable in the above sense. */
  lemma SignedReadsBackIff(v: int, width: int, padc: char)
    requires -0x8000_0000_0000_0000 <= v < 0x8000_0000_0000_0000 && PadCharacter(padc)
    ensures var s := Signed(v, width, padc);
            Read(s, 10) == Reading(v, |s|) <==> Readable(v, width, padc)
  {
    if v >= 0 {
      NonNegativeReadsBack(v, width, padc);
    } else {
      NegativeReadsBack(-v, width, padc);
    }
  }

  lemma NonNegativeReadsBack(n: nat, width: int, padc: char)
    requires n < 0x8000_0000_0000_0000 && PadCharacter(padc)
    ensures var s := Signed(n, width, padc);
            Read(s, 10) == Reading(n, |s|) <==> Readable(n, width, padc)
  {
    hide Read, Numeral;
    UnsignedReadsIff(n, 10, width, padc);
  }

  /** Without a sign, only dashes do harm: one dash makes a number its negative. */
  lemma UnsignedReadsIff(n: Word, base: nat, width: int, padc: char)
    requires Base(base) && PadCharacter(padc)
    ensures var s, pads := Padded(n, base, width, padc), Pads(n, base, width);
            Read(s, base) == Reading(AsInt64(n), |s|) <==>
            padc != '-' || pads == 0 || (pads == 1 && (n == 0 || n == 0x8000_0000_0000_0000))
  {
    hide Read, Numeral;
    var pads := Pads(n, base, width);
    var s := Padded(n, base, width, padc);
    assert WrapLong(n) == AsInt64(n);
    if padc != '-' || pads == 0 {
      PaddedReadsBack(n, base, width, if padc == '-' then ' ' else padc);
      assert pads == 0 ==> s == Padded(n, base, width, ' ');
    } else if pads == 1 {
      OneDashNegates(n, base, width);
    } else {
      assert s[0] == '-' && s[1] == '-';
      StopsAfterSign(s, base);
    }
  }

  /** One dash in front of the digits is read as a minus sign. */
  lemma OneDashNegates(n: nat, base: nat, width: int)
    requires Base(base) && Pads(n, base, width) == 1
    ensures var s := Padded(n, base, width, '-'); Read(s, base) == Reading(WrapLong(0 - n), |s|)
  {
    hide Read, Numeral, WrapLong;
    ReadsBack("", Minus, 0, n, base);
    assert Padded(n, base, width, '-') == "" + ("-" + (Repeat(0, '0') + Numeral(n, base)));
  }

  /** A minus sign that no digit follows is all that is read. */
  lemma StopsAfterSign(s: string, base: nat)
    requires Base(base) && |s| >= 2 && s[0] == '-' && !IsDigitOf(s[1], base)
    ensures Read(s, base).end == 1
  {
    assert SkipBlanks(s, 0) == 0;
    assert s[1] != '0' && Prefix(s, 1, base) == (base, 1);
  }

  lemma NegativeReadsBack(n: nat, width: int, padc: char)
    requires 0 < n <= 0x8000_0000_0000_0000 && PadCharacter(padc)
    ensures var s := Signed(0 - n, width, padc);
            Read(s, 10) == Reading(0 - n, |s|) <==> Readable(0 - n, width, padc)
  {
    hide Read, Numeral;
    var pads := Pads(n, 10, width);
    var digits := Repeat(pads, padc) + Numeral(n, 10);
    var s := "-" + digits;
    if padc == '0' || pads == 0 {
      ReadsBack("", Minus, pads, n, 10);
      assert s == "" + ("-" + (Repeat(pads, '0') + Numeral(n, 10)));
    } else {
      assert s[1] == padc;
      StopsAfterSign(s, 10);
    }
  }

  // ----- From the format string to the number -----

  /** How many values a number has whose conversion has so many l flags. */
  function Values(longs: nat): nat
  {
    if longs == 0 then 0x1_0000_0000 else 0x1_0000_0000_0000_0000
  }

  /** %d, %ld, %lld and so on, with any fill flag and width, of every number of the
      type: printed and read in base 10. */
  lemma SignedDirectiveReadsBackIff(fmt: CString, args: Args, fill: Fill, width: nat, longs: nat, v: int)
    requires fmt == DirectiveText(Spec(fill, false, width, None, longs, 'd'))
    requires 0 - Values(longs) <= 2 * v < Values(longs) && Holds(args(0).word, v, Values(longs))
    ensures var s, digits := Format(fmt, args), |Numeral(if v < 0 then -v else v, 10)|;
            Read(s, 10) == Reading(v, |s|) <==>
            || width <= digits || fill.Zeros? || (fill.Spaces? && v >= 0)
            || (fill.Dashes? && v == 0 && width == digits + 1)
  {
    hide Format, Read, Numeral, DirectiveText, Holds;
    var d := Spec(fill, false, width, None, longs, 'd');
    SoleDirective(fmt, args, d);
    ReadAsHeld(args(0).word, v);
    SignedReadsBackIff(v, Taken(d).width, Taken(d).padc);
  }

  /** The same for %u, %o and %x, read in their bases: what comes back has the same
      64 bits. */
  lemma UnsignedDirectiveReadsBackIff(fmt: CString, args: Args, fill: Fill, width: nat, longs: nat, c: char, base: nat,
                                      n: Word)
    requires (c, base) in {('u', 10), ('o', 8), ('x', 16)}
    requires fmt == DirectiveText(Spec(fill, false, width, None, longs, c))
    requires n < Values(longs) && Holds(args(0).word, n, Values(longs))
    ensures var s, digits := Format(fmt, args), |Numeral(n, base)|;
            Read(s, base) == Reading(AsInt64(n), |s|) <==>
            !fill.Dashes? || width <= digits || (width == digits + 1 && (n == 0 || n == 0x8000_0000_0000_0000))
  {
    hide Format, Read, Numeral, DirectiveText;
    var d := Spec(fill, false, width, None, longs, c);
    SoleDirective(fmt, args, d);
    UnsignedHeld(args(0).word, n, longs);
    UnsignedReadsIff(n, base, Taken(d).width, Taken(d).padc);
  }

  lemma UnsignedHeld(w: Word, n: Word, longs: nat)
    requires n < Values(longs) && Holds(w, n, Values(longs))
    ensures UnsignedArg(PLAIN.(lflag := longs), w) == n
  {
    ReadAsHeld(w, n);
    if longs > 0 {
      var k: int :| w == n + k * Values(longs);
      assert k == 0;
    }
  }

  /** %p is read back with base 16 and with an open base, exactly when nothing but
      zeros separates the prefix from the digits. */
  lemma PointerReadsBackIff(fmt: CString, args: Args, fill: Fill, width: nat, base: nat)
    requires (base == 0 || base == 16) && fmt == DirectiveText(Spec(fill, false, width, None, 0, 'p'))
    ensures var s, n := Format(fmt, args), args(0).word;
            Read(s, base) == Reading(AsInt64(n), |s|) <==> fill.Zeros? || width <= |Numeral(n, 16)|
  {
    hide Format, Read, Numeral, DirectiveText;
    var d := Spec(fill, false, width, None, 0, 'p');
    SoleDirective(fmt, args, d);
    PrefixedReadsBackIff(args(0).word, Taken(d).width, Taken(d).padc, base);
  }

  // ----- The flag - on numbers -----

  /** The flag - does not change what is printed of a number, exactly if the width
      is at most the number of digits: it puts dashes in front of the digits. */
  lemma DashHarmlessIff(fmt: CString, plain: CString, args: Args, width: nat, longs: nat, v: int)
    requires fmt == DirectiveText(Spec(Dashes, false, width, None, longs, 'd'))
    requires plain == DirectiveText(Spec(Spaces, false, 0, None, longs, 'd'))
    requires 0 - Values(longs) <= 2 * v < Values(longs) && Holds(args(0).word, v, Values(longs))
    ensures Format(fmt, args) == Format(plain, args) <==> width <= |Numeral(if v < 0 then -v else v, 10)|
  {
    hide Format, Numeral, DirectiveText, Holds;
    ReadAsHeld(args(0).word, v);
    SoleDirective(fmt, args, Spec(Dashes, false, width, None, longs, 'd'));
    SoleDirective(plain, args, Spec(Spaces, false, 0, None, longs, 'd'));
    assert Format(plain, args) == Signed(v, -1, ' ');
    assert |Signed(v, if width > 0 then width else -1, '-')| > |Signed(v, -1, ' ')| <==>
           width > |Numeral(if v < 0 then -v else v, 10)|;
  }

  /** %-3ld of 42 prints minus 42, and that is what strtol reads. */
  lemma DashedNumberNegated(args: Args)
    requires args(0).word == 42
    ensures Format("%-3ld", args) == "-42" && Read(Format("%-3ld", args), 10) == Reading(-42, 3)
  {
    hide Format, Read;
    DashedText();
    SoleDirective("%-3ld", args, Spec(Dashes, false, 3, None, 1, 'd'));
    hide DirectiveText;
    assert Format("%-3ld", args) == Signed(42, 3, '-');
    OneDashNegates(42, 10, 3);
  }

  lemma DashedText()
    ensures DirectiveText(Spec(Dashes, false, 3, None, 1, 'd')) == "%-3ld"
    ensures Signed(42, 3, '-') == Padded(42, 10, 3, '-') == "-42" && Pads(42, 10, 3) == 1
  {
    SmallNumerals();
    hide Numeral;
    RepeatOnce('l');
    RepeatOnce('-');
    RepeatOnce('0');
  }

  // ----- Prefixed numbers -----

  lemma PrefixedReadsBackIff(n: Word, width: int, padc: char, base: nat)
    requires (base == 0 || base == 16) && PadCharacter(padc)
    ensures var s := "0x" + Padded(n, 16, width, padc);
            Read(s, base) == Reading(AsInt64(n), |s|) <==> padc == '0' || Pads(n, 16, width) == 0
  {
    hide Numeral;
    assert WrapLong(n) == AsInt64(n);
    var pads := Pads(n, 16, width);
    var s := "0x" + Padded(n, 16, width, padc);
    if padc == '0' || pads == 0 {
      ReadsBackPrefixed(pads, n, base);
      assert Padded(n, 16, width, padc) == Repeat(pads, '0') + Numeral(n, 16);
    } else {
      assert s[2] == padc;
      assert SkipBlanks(s, 0) == 0;
      assert Prefix(s, 0, base) == (16, 2);
      assert RunEnd(s, 2, 16) == 2;
    }
  }

  // ----- Two numbers that are not read back -----

  /** %5ld of -7: the spaces stand behind the sign, and strtol stops there. */
  lemma PaddedNegativeUnread(args: Args)
    requires args(0).word == 0xFFFF_FFFF_FFFF_FFF9
    ensures Format("%5ld", args) == "-    7" && Read(Format("%5ld", args), 10) == Reading(0, 1)
  {
    hide Format, Read;
    NegativeText();
    SoleDirective("%5ld", args, Spec(Spaces, false, 5, None, 1, 'd'));
    hide DirectiveText;
    assert Format("%5ld", args) == Signed(-7, 5, ' ');
    StopsBehind("-    7", 10);
  }

  /** %5p of 7: the spaces stand behind the prefix. */
  lemma PaddedPointerUnread(args: Args)
    requires args(0).word == 7
    ensures Format("%5p", args) == "0x    7" && Read(Format("%5p", args), 16) == Reading(0, 2)
  {
    hide Format, Read;
    PointerText();
    SoleDirective("%5p", args, Spec(Spaces, false, 5, None, 0, 'p'));
    hide DirectiveText;
    assert Format("%5p", args) == "0x" + Padded(7, 16, 5, ' ');
    StopsBehind("0x    7", 16);
  }

  lemma NegativeText()
    ensures DirectiveText(Spec(Spaces, false, 5, None, 1, 'd')) == "%5ld" && Signed(-7, 5, ' ') == "-    7"
  {
    SmallNumerals();
    FourTimes(' ');
    hide Numeral, Repeat;
    assert Repeat(1, 'l') == "l" by {
      RepeatOnce('l');
    }
  }

  lemma PointerText()
    ensures DirectiveText(Spec(Spaces, false, 5, None, 0, 'p')) == "%5p" && "0x" + Padded(7, 16, 5, ' ') == "0x    7"
  {
    SmallNumerals();
    FourTimes(' ');
    hide Numeral;
  }

  lemma RepeatOnce(c: char)
    ensures Repeat(1, c) == [c]
  {
  }

  /** A number that ends with its sign or prefix is 0. */
  lemma StopsBehind(s: string, base: nat)
    requires || (base == 10 && |s| > 1 && s[0] == '-' && s[1] == ' ')
             || (base == 16 && |s| > 2 && s[..2] == "0x" && s[2] == ' ')
    ensures Read(s, base) == Reading(0, if base == 10 then 1 else 2)
  {
    assert SkipBlanks(s, 0) == 0;
    if base == 10 {
      assert RunEnd(s, 1, 10) == 1 && Unsigned(s, 1, 10) == Reading(0, 1);
    } else {
      assert s[0] == s[..2][0] && s[1] == s[..2][1];
      assert RunEnd(s, 2, 16) == 2 && Unsigned(s, 0, 16) == Reading(0, 2);
    }
  }

  lemma SmallNumerals()
    ensures Numeral(5, 10) == "5" && Numeral(7, 10) == "7" && Numeral(7, 16) == "7"
    ensures Numeral(3, 10) == "3" && Numeral(42, 10) == "42"
  {
    assert Numeral(4, 10) == "4";
  }

  lemma FourTimes(c: char)
    ensures Repeat(4, c) == [c, c, c, c]
  {
    var s := Repeat(4, c);
    assert s == [s[0], s[1], s[2], s[3]];
  }

  // ----- The printer and the reader themselves -----

  /** The string that starts at the beginning of a buffer. */
  function StringIn(buf: string): (s: string)
    ensures '\0' !in s && |s| <= |buf|
  {
    if buf == "" || buf[0] == '\0' then "" else [buf[0]] + StringIn(buf[1..])
  }

  lemma {:induction false} StringBefore(s: string, rest: string)
    requires '\0' !in s
    ensures StringIn(s + ['\0'] + rest) == s
  {
    if s != "" {
      assert (s + ['\0'] + rest)[1..] == s[1..] + ['\0'] + rest;
      StringBefore(s[1..], rest);
    }
  }

  lemma NumeralHasNoTerminator(n: nat, base: nat)
    requires Base(base)
    ensures '\0' !in Numeral(n, base)
  {
    NumeralValue(n, base);
    hide Numeral;
    var s := Numeral(n, base);
    forall i | 0 <= i < |s|
      ensures s[i] != '\0'
    {
      assert DigitValue(s[i]) >= 0;
    }
  }

  lemma PaddedHasNoTerminator(n: nat, base: nat, width: int, padc: char)
    requires Base(base) && padc != '\0'
    ensures '\0' !in Padded(n, base, width, padc)
  {
    NumeralHasNoTerminator(n, base);
    hide Numeral, Repeat;
    assert '\0' !in Repeat(width - |Numeral(n, base)|, padc);
  }

  /** What vsnprintf prints into a buffer that is large enough, and strtol reads from
      there. */
  method PrintThenRead(buf: array<char>, fmt: CString, args: Args, base: int)
    returns (cnt: int, value: int, endptr: nat)
    requires |Format(fmt, args)| < buf.Length && '\0' !in Format(fmt, args)
    modifies buf
    ensures cnt == |Format(fmt, args)| && Reading(value, endptr) == Read(Format(fmt, args), base)
  {
    hide Format, Read;
    ghost var text, before := Format(fmt, args), buf[..];
    cnt := VSNPrintF(buf, buf.Length, fmt, args);
    assert buf[..] == text + ['\0'] + before[|text| + 1..];
    StringBefore(text, before[|text| + 1..]);
    value, endptr := StrToL(StringIn(buf[..]), base);
  }

  /** Any signed number printed and read back: it comes back, with the end at the
      terminator, exactly under the condition of SignedDirectiveReadsBackIff. */
  method PrintThenReadSigned(buf: array<char>, fmt: CString, args: Args, fill: Fill, width: nat, longs: nat,
                             ghost v: int)
    returns (cnt: int, value: int, endptr: nat)
    requires fmt == DirectiveText(Spec(fill, false, width, None, longs, 'd'))
    requires 0 - Values(longs) <= 2 * v < Values(longs) && Holds(args(0).word, v, Values(longs))
    requires |Format(fmt, args)| < buf.Length
    modifies buf
    ensures var digits := |Numeral(if v < 0 then -v else v, 10)|;
            value == v && endptr == cnt <==>
            || width <= digits || fill.Zeros? || (fill.Spaces? && v >= 0)
            || (fill.Dashes? && v == 0 && width == digits + 1)
  {
    hide Format, Read, Numeral, DirectiveText, Padded, Holds;
    ghost var d := Spec(fill, false, width, None, longs, 'd');
    SoleDirective(fmt, args, d);
    ReadAsHeld(args(0).word, v);
    PaddedHasNoTerminator(if v < 0 then -v else v, 10, Taken(d).width, Taken(d).padc);
    SignedDirectiveReadsBackIff(fmt, args, fill, width, longs, v);
    cnt, value, endptr := PrintThenRead(buf, fmt, args, 10);
  }

  /** The same with %u, %o and %x, under the condition of
      UnsignedDirectiveReadsBackIff. */
  method PrintThenReadUnsigned(buf: array<char>, fmt: CString, args: Args, fill: Fill, width: nat, longs: nat, c: char,
                               base: nat, ghost n: Word)
    returns (cnt: int, value: int, endptr: nat)
    requires (c, base) in {('u', 10), ('o', 8), ('x', 16)}
    requires fmt == DirectiveText(Spec(fill, false, width, None, longs, c))
    requires n < Values(longs) && Holds(args(0).word, n, Values(longs))
    requires |Format(fmt, args)| < buf.Length
    modifies buf
    ensures var digits := |Numeral(n, base)|;
            value == AsInt64(n) && endptr == cnt <==>
            !fill.Dashes? || width <= digits || (width == digits + 1 && (n == 0 || n == 0x8000_0000_0000_0000))
  {
    hide Format, Read, Numeral, DirectiveText, Padded;
    ghost var d := Spec(fill, false, width, None, longs, c);
    SoleDirective(fmt, args, d);
    UnsignedHeld(args(0).word, n, longs);
    PaddedHasNoTerminator(n, base, Taken(d).width, Taken(d).padc);
    UnsignedDirectiveReadsBackIff(fmt, args, fill, width, longs, c, base, n);
    cnt, value, endptr := PrintThenRead(buf, fmt, args, base);
  }

  /** The same with %p, under the condition of PointerReadsBackIff. */
  method PrintThenReadPointer(buf: array<char>, fmt: CString, args: Args, fill: Fill, width: nat, base: nat)
    returns (cnt: int, value: int, endptr: nat)
    requires (base == 0 || base == 16) && fmt == DirectiveText(Spec(fill, false, width, None, 0, 'p'))
    requires |Format(fmt, args)| < buf.Length
    modifies buf
    ensures var n := args(0).word;
            value == AsInt64(n) && endptr == cnt <==> fill.Zeros? || width <= |Numeral(n, 16)|
  {
    hide Format, Read, Numeral, DirectiveText, Padded;
    ghost var d := Spec(fill, false, width, None, 0, 'p');
    SoleDirective(fmt, args, d);
    PaddedHasNoTerminator(args(0).word, 16, Taken(d).width, Taken(d).padc);
    PointerReadsBackIff(fmt, args, fill, width, base);
    cnt, value, endptr := PrintThenRead(buf, fmt, args, base);
  }
}
