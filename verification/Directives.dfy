/** Directives and formats: which directives the format machine understands, and
    what a format made of them prints. */
module Directives {
  import opened Digits
  import opened FormatSpec
  import opened Wrappers

  // ----- Directives as they are written -----

  /** What fills the width: spaces, or the flags 0 and -. */
  datatype Fill = Spaces | Zeros | Dashes

  /** A directive as one writes it. A width of 0 is left out, since a written 0 is
      a flag; a precision may be left out and may be 0. */
  datatype Spec = Spec(fill: Fill, alt: bool, width: nat, precision: Option<nat>, longs: nat, c: char)

  function FillText(fill: Fill): string
  {
    match fill
    case Spaces => ""
    case Zeros => "0"
    case Dashes => "-"
  }

  function FillChar(fill: Fill): char
  {
    match fill
    case Spaces => ' '
    case Zeros => '0'
    case Dashes => '-'
  }

  function AltText(alt: bool): string
  {
    if alt then "#" else ""
  }

  function WidthText(width: nat): string
  {
    if width > 0 then Numeral(width, 10) else ""
  }

  function PrecisionText(precision: Option<nat>): string
  {
    if precision.Some? then "." + Numeral(precision.value, 10) else ""
  }

  function DirectiveText(d: Spec): string
  {
    "%" + BehindPercent(d)
  }

  function BehindPercent(d: Spec): string
  {
    FillText(d.fill) + (AltText(d.alt) + (WidthText(d.width) + (PrecisionText(d.precision) + SizeText(d.longs, d.c))))
  }

  function SizeText(longs: nat, c: char): string
  {
    Repeat(longs, 'l') + [c]
  }

  /** The flags that the directive asks for. */
  function Asked(d: Spec): Flags
  {
    Flags(FillChar(d.fill), if d.width > 0 then d.width else if d.precision.Some? then 0 else -1,
          if d.precision.Some? then d.precision.value else -1, d.longs, d.alt)
  }

  /** The flags that the format machine takes from it: the 0 of a precision 0 is
      a flag to the machine, and no precision is left. */
  function Taken(d: Spec): Flags
  {
    if d.precision == Some(0) then Asked(d).(padc := '0', precision := -1) else Asked(d)
  }

  /** The characters of fmt from i on begin with s. */
  predicate Follows(fmt: string, i: nat, s: string)
  {
    i + |s| <= |fmt| && fmt[i..i + |s|] == s
  }

  lemma FollowsSplit(fmt: string, i: nat, s: string, t: string)
    requires Follows(fmt, i, s + t)
    ensures Follows(fmt, i, s) && Follows(fmt, i + |s|, t)
  {
    assert fmt[i..i + |s|] == (s + t)[..|s|];
    assert fmt[i + |s|..i + |s + t|] == (s + t)[|s|..];
  }

  lemma FollowsAt(fmt: CString, i: nat, s: string, k: nat)
    requires Follows(fmt, i, s) && k < |s|
    ensures At(fmt, i + k) == s[k]
  {
    assert fmt[i..i + |s|][k] == s[k];
  }

  lemma {:induction false} DigitsEndIs(fmt: CString, i: nat, j: nat)
    requires i <= j <= |fmt| && (forall k :: i <= k < j ==> IsDigit(fmt[k])) && !IsDigit(At(fmt, j))
    ensures DigitsEnd(fmt, i) == j
    decreases j - i
  {
    if i < j {
      DigitsEndIs(fmt, i + 1, j);
    }
  }

  lemma ScanNumber(fmt: CString, args: Args, i: nat, ap: nat, f: Flags, n: nat)
    requires n > 0 && Follows(fmt, i, Numeral(n, 10)) && !IsDigit(At(fmt, i + |Numeral(n, 10)|))
    ensures Scan(fmt, args, i, ap, f) == Scan(fmt, args, i + |Numeral(n, 10)|, ap, FillIn(f, n))
  {
    hide Scan, Value, Numeral;
    var s := Numeral(n, 10);
    var j := i + |s|;
    DecimalDigits(n);
    forall k | i <= k < j
      ensures IsDigit(fmt[k])
    {
      FollowsAt(fmt, i, s, k - i);
    }
    DigitsEndIs(fmt, i, j);
    FollowsAt(fmt, i, s, 0);
    ScanDigitsStep(fmt, args, i, ap, f);
  }

  lemma DecimalDigits(n: nat)
    requires n > 0
    ensures var s := Numeral(n, 10);
            IsNumeral(s, 10) && Value(s, 10) == n && s[0] != '0' && forall k :: 0 <= k < |s| ==> IsDigit(s[k])
  {
    NumeralValue(n, 10);
    NumeralLeads(n, 10);
  }

  lemma ScanDigitsStep(fmt: CString, args: Args, i: nat, ap: nat, f: Flags)
    requires i <= |fmt| && IsDigit(At(fmt, i)) && At(fmt, i) != '0'
    ensures IsNumeral(fmt[i..DigitsEnd(fmt, i)], 10)
    ensures var j := DigitsEnd(fmt, i);
            Scan(fmt, args, i, ap, f) == Scan(fmt, args, j, ap, FillIn(f, Value(fmt[i..j], 10)))
  {
    DigitsAreNumeral(fmt[i..DigitsEnd(fmt, i)]);
  }

  lemma {:induction false} ScanLongs(fmt: CString, args: Args, i: nat, ap: nat, f: Flags, longs: nat)
    requires Follows(fmt, i, Repeat(longs, 'l'))
    ensures Scan(fmt, args, i, ap, f) == Scan(fmt, args, i + longs, ap, f.(lflag := f.lflag + longs))
    decreases longs
  {
    hide Scan;
    if longs > 0 {
      FollowsSplit(fmt, i, ['l'], Repeat(longs - 1, 'l'));
      FollowsAt(fmt, i, ['l'], 0);
      ScanLong(fmt, args, i, ap, f);
      ScanLongs(fmt, args, i + 1, ap, f.(lflag := f.lflag + 1), longs - 1);
    }
  }

  lemma ScanLong(fmt: CString, args: Args, i: nat, ap: nat, f: Flags)
    requires i <= |fmt| && At(fmt, i) == 'l'
    ensures Scan(fmt, args, i, ap, f) == Scan(fmt, args, i + 1, ap, f.(lflag := f.lflag + 1))
  {
  }

  // ----- What the machine makes of them -----

  /** What may follow a number inside a directive. */
  predicate EndsNumber(c: char)
  {
    c == '.' || c == 'l' || Recognised(c)
  }

  lemma ScanStops(fmt: CString, args: Args, i: nat, ap: nat, f: Flags)
    requires i <= |fmt| && Recognised(At(fmt, i))
    ensures Scan(fmt, args, i, ap, f) == Scanned(f, i, ap)
  {
  }

  lemma ScanSize(fmt: CString, args: Args, i: nat, ap: nat, f: Flags, longs: nat, c: char)
    requires Recognised(c) && Follows(fmt, i, SizeText(longs, c))
    ensures Scan(fmt, args, i, ap, f) == Scanned(f.(lflag := f.lflag + longs), i + longs, ap)
    ensures i + longs < |fmt| && EndsNumber(At(fmt, i)) && fmt[i + longs] == c
  {
    hide Scan, Recognised;
    FollowsSplit(fmt, i, Repeat(longs, 'l'), [c]);
    FollowsAt(fmt, i + longs, [c], 0);
    if longs > 0 {
      FollowsAt(fmt, i, Repeat(longs, 'l'), 0);
    }
    hide Follows, Repeat;
    ScanLongs(fmt, args, i, ap, f, longs);
    ScanStops(fmt, args, i + longs, ap, f.(lflag := f.lflag + longs));
  }

  lemma ScanDot(fmt: CString, args: Args, i: nat, ap: nat, f: Flags)
    requires i <= |fmt| && At(fmt, i) == '.'
    ensures Scan(fmt, args, i, ap, f) == Scan(fmt, args, i + 1, ap, f.(width := if f.width < 0 then 0 else f.width))
  {
  }

  lemma ScanFillChar(fmt: CString, args: Args, i: nat, ap: nat, f: Flags)
    requires i <= |fmt| && (At(fmt, i) == '0' || At(fmt, i) == '-')
    ensures Scan(fmt, args, i, ap, f) == Scan(fmt, args, i + 1, ap, f.(padc := At(fmt, i)))
  {
  }

  lemma ScanAltChar(fmt: CString, args: Args, i: nat, ap: nat, f: Flags)
    requires i <= |fmt| && At(fmt, i) == '#'
    ensures Scan(fmt, args, i, ap, f) == Scan(fmt, args, i + 1, ap, f.(alt := true))
  {
  }

  lemma ScanFill(fmt: CString, args: Args, i: nat, ap: nat, fill: Fill)
    requires Follows(fmt, i, FillText(fill))
    ensures Scan(fmt, args, i, ap, PLAIN) == Scan(fmt, args, i + |FillText(fill)|, ap, PLAIN.(padc := FillChar(fill)))
  {
    hide Scan;
    if !fill.Spaces? {
      FollowsAt(fmt, i, FillText(fill), 0);
      ScanFillChar(fmt, args, i, ap, PLAIN);
    }
  }

  lemma ScanAlt(fmt: CString, args: Args, i: nat, ap: nat, f: Flags, alt: bool)
    requires Follows(fmt, i, AltText(alt)) && !f.alt
    ensures Scan(fmt, args, i, ap, f) == Scan(fmt, args, i + |AltText(alt)|, ap, f.(alt := alt))
  {
    hide Scan;
    if alt {
      FollowsAt(fmt, i, AltText(alt), 0);
      ScanAltChar(fmt, args, i, ap, f);
    }
  }

  lemma EndsNumberNoDigit(c: char)
    requires EndsNumber(c)
    ensures !IsDigit(c)
  {
  }

  /** The precision, if there is one: a number greater than 0 is taken for it, a 0
      for a flag. */
  lemma ScanPrecision(fmt: CString, args: Args, i: nat, ap: nat, f: Flags, precision: Option<nat>)
    requires Follows(fmt, i, PrecisionText(precision)) && f.precision == -1
    requires EndsNumber(At(fmt, i + |PrecisionText(precision)|))
    ensures Scan(fmt, args, i, ap, f) ==
            Scan(fmt, args, i + |PrecisionText(precision)|, ap, WithPrecision(f, precision))
    ensures EndsNumber(At(fmt, i))
  {
    hide Scan, Numeral, Recognised, Follows;
    if precision.Some? {
      EndsNumberNoDigit(At(fmt, i + |PrecisionText(precision)|));
      FollowsSplit(fmt, i, ".", Numeral(precision.value, 10));
      FollowsAt(fmt, i, ".", 0);
      ScanDot(fmt, args, i, ap, f);
      ScanPrecisionNumber(fmt, args, i + 1, ap, f.(width := if f.width < 0 then 0 else f.width), precision.value);
    }
  }

  lemma ScanPrecisionNumber(fmt: CString, args: Args, i: nat, ap: nat, f: Flags, n: nat)
    requires Follows(fmt, i, Numeral(n, 10)) && f.width >= 0 && !IsDigit(At(fmt, i + |Numeral(n, 10)|))
    ensures Scan(fmt, args, i, ap, f) ==
            Scan(fmt, args, i + |Numeral(n, 10)|, ap, if n > 0 then f.(precision := n) else f.(padc := '0'))
  {
    hide Scan, Numeral, Follows;
    if n > 0 {
      ScanNumber(fmt, args, i, ap, f, n);
    } else {
      ZeroNumeral();
      FollowsAt(fmt, i, "0", 0);
      ScanFillChar(fmt, args, i, ap, f);
    }
  }

  function WithPrecision(f: Flags, precision: Option<nat>): Flags
  {
    if precision == None then f
    else
      var f' := f.(width := if f.width < 0 then 0 else f.width);
      if precision.value > 0 then f'.(precision := precision.value) else f'.(padc := '0')
  }

  lemma ZeroNumeral()
    ensures Numeral(0, 10) == "0"
  {
  }

  lemma ScanWidth(fmt: CString, args: Args, i: nat, ap: nat, f: Flags, width: nat)
    requires Follows(fmt, i, WidthText(width)) && f.width == -1 && f.precision == -1
    requires EndsNumber(At(fmt, i + |WidthText(width)|))
    ensures Scan(fmt, args, i, ap, f) ==
            Scan(fmt, args, i + |WidthText(width)|, ap, f.(width := if width > 0 then width else -1))
  {
    hide Scan, Numeral;
    if width > 0 {
      ScanNumber(fmt, args, i, ap, f, width);
    }
  }

  lemma ScanPrecisionAndSize(fmt: CString, args: Args, i: nat, ap: nat, f: Flags,
                             precision: Option<nat>, longs: nat, c: char)
    requires Recognised(c) && Follows(fmt, i, PrecisionText(precision) + SizeText(longs, c)) && f.precision == -1
    ensures var f', end := WithPrecision(f, precision), i + |PrecisionText(precision)| + longs;
            && end < |fmt| && fmt[end] == c && EndsNumber(At(fmt, i))
            && Scan(fmt, args, i, ap, f) == Scanned(f'.(lflag := f'.lflag + longs), end, ap)
  {
    hide Scan, Numeral, Follows, Recognised, PrecisionText, SizeText, EndsNumber, WithPrecision;
    var j := i + |PrecisionText(precision)|;
    FollowsSplit(fmt, i, PrecisionText(precision), SizeText(longs, c));
    ScanSize(fmt, args, j, ap, WithPrecision(f, precision), longs, c);
    ScanPrecision(fmt, args, i, ap, f, precision);
  }

  lemma ScanNumbers(fmt: CString, args: Args, i: nat, ap: nat, f: Flags, d: Spec)
    requires Recognised(d.c) && f.width == -1 && f.precision == -1
    requires Follows(fmt, i, WidthText(d.width) + (PrecisionText(d.precision) + SizeText(d.longs, d.c)))
    ensures var f' := WithPrecision(f.(width := if d.width > 0 then d.width else -1), d.precision);
            var end := i + |WidthText(d.width)| + |PrecisionText(d.precision)| + d.longs;
            && end < |fmt| && fmt[end] == d.c
            && Scan(fmt, args, i, ap, f) == Scanned(f'.(lflag := f'.lflag + d.longs), end, ap)
  {
    hide Scan, Numeral, Follows, Recognised, WidthText, PrecisionText, SizeText, EndsNumber, WithPrecision;
    var j := i + |WidthText(d.width)|;
    FollowsSplit(fmt, i, WidthText(d.width), PrecisionText(d.precision) + SizeText(d.longs, d.c));
    var f' := f.(width := if d.width > 0 then d.width else -1);
    ScanPrecisionAndSize(fmt, args, j, ap, f', d.precision, d.longs, d.c);
    ScanWidth(fmt, args, i, ap, f, d.width);
  }

  /** What stands between the percent sign and the conversion character. */
  lemma ScanSpec(fmt: CString, args: Args, i: nat, ap: nat, d: Spec)
    requires Recognised(d.c) && Follows(fmt, i, BehindPercent(d))
    ensures var end := i + |BehindPercent(d)| - 1;
            && i <= end < |fmt| && fmt[end] == d.c
            && Scan(fmt, args, i, ap, PLAIN) == Scanned(Taken(d), end, ap)
  {
    hide Scan, Numeral, Follows, Recognised, FillText, AltText, WidthText, PrecisionText, SizeText;
    var i1 := i + |FillText(d.fill)|;
    var i2 := i1 + |AltText(d.alt)|;
    var rest := WidthText(d.width) + (PrecisionText(d.precision) + SizeText(d.longs, d.c));
    FollowsSplit(fmt, i, FillText(d.fill), AltText(d.alt) + rest);
    FollowsSplit(fmt, i1, AltText(d.alt), rest);
    var f1 := PLAIN.(padc := FillChar(d.fill));
    ScanNumbers(fmt, args, i2, ap, f1.(alt := d.alt), d);
    ScanAlt(fmt, args, i1, ap, f1, d.alt);
    ScanFill(fmt, args, i, ap, d.fill);
    SizeLength(d.longs, d.c);
  }

  lemma SizeLength(longs: nat, c: char)
    ensures |SizeText(longs, c)| == longs + 1
  {
  }

  /** A directive in standard form, wherever it stands in a format, is converted
      with the flags that the machine takes from it, and ends where its text ends. */
  lemma DirectiveUnderstood(fmt: CString, args: Args, i: nat, ap: nat, d: Spec)
    requires Recognised(d.c) && Follows(fmt, i, DirectiveText(d))
    ensures i < |fmt| && fmt[i] == '%'
    ensures Directive(fmt, args, i, ap) ==
            Piece(Convert(d.c, Taken(d), args(ap)), i + |DirectiveText(d)|, if d.c == '%' then ap else ap + 1)
  {
    hide Scan, BehindPercent, Convert, Taken;
    FollowsSplit(fmt, i, "%", BehindPercent(d));
    FollowsAt(fmt, i, "%", 0);
    ScanSpec(fmt, args, i + 1, ap, d);
  }

  /** The machine takes the flags that the directive asks for, exactly if the
      precision is not a written 0. */
  lemma UnderstoodIff(fmt: CString, args: Args, i: nat, ap: nat, d: Spec)
    requires Recognised(d.c) && Follows(fmt, i, DirectiveText(d))
    ensures Scan(fmt, args, i + 1, ap, PLAIN).flags == Asked(d) <==> d.precision != Some(0)
  {
    hide Scan, BehindPercent;
    FollowsSplit(fmt, i, "%", BehindPercent(d));
    ScanSpec(fmt, args, i + 1, ap, d);
  }

  lemma SoleDirective(fmt: CString, args: Args, d: Spec)
    requires Recognised(d.c) && fmt == DirectiveText(d)
    ensures Format(fmt, args) == Convert(d.c, Taken(d), args(0))
  {
    assert fmt[0..|fmt|] == fmt;
    DirectiveUnderstood(fmt, args, 0, 0, d);
    var p := Directive(fmt, args, 0, 0);
    assert Render(fmt, args, p.next, p.ap) == "";
  }

  // ----- Precisions of strings -----

  /** %.0s prints the whole string. */
  lemma PrecisionZeroPrintsAll(args: Args, s: CString)
    requires args(0).text == Some(s)
    ensures Format("%.0s", args) == s
  {
    PrecisionText0();
    TruncatedText(0, args, s);
  }

  lemma PrecisionText0()
    ensures DirectiveText(Spec(Spaces, false, 0, Some(0), 0, 's')) == "%.0s"
  {
    ZeroNumeral();
    hide Numeral;
  }

  /** What is printed of a string under a precision. */
  lemma TruncatedText(p: nat, args: Args, s: CString)
    requires args(0).text == Some(s)
    requires var fmt := DirectiveText(Spec(Spaces, false, 0, Some(p), 0, 's'));
             |fmt| < 0x8000_0000_0000_0000 && '\0' !in fmt
    ensures var fmt: CString := DirectiveText(Spec(Spaces, false, 0, Some(p), 0, 's'));
            Format(fmt, args) == if p == 0 || p > |s| then s else s[..p]
  {
    var d := Spec(Spaces, false, 0, Some(p), 0, 's');
    var fmt: CString := DirectiveText(d);
    SoleDirective(fmt, args, d);
    hide DirectiveText;
    var n := Admitted(s, Taken(d).precision);
    assert Masked(s[..n], false) == s[..n];
    assert Format(fmt, args) == "" + Masked(s[..n], false);
  }

  /** The precision bounds what is printed of the string, exactly if it is not 0
      or the string is empty. */
  lemma PrecisionBoundsIff(p: nat, fmt: CString, args: Args, s: CString)
    requires args(0).text == Some(s) && fmt == DirectiveText(Spec(Spaces, false, 0, Some(p), 0, 's'))
    ensures |Format(fmt, args)| <= p <==> p > 0 || s == ""
  {
    TruncatedText(p, args, s);
  }

  // ----- Widths and precisions that are arguments -----

  lemma ScanStar(fmt: CString, args: Args, i: nat, ap: nat, f: Flags, n: int)
    requires i <= |fmt| && At(fmt, i) == '*' && Int32(args(ap).word, n)
    ensures Scan(fmt, args, i, ap, f) == Scan(fmt, args, i + 1, ap + 1, FillIn(f, n))
  {
    ReadAsHeld(args(ap).word, n);
  }

  /** The word holds the int n. */
  ghost predicate Int32(w: Word, n: int)
  {
    -0x8000_0000 <= n < 0x8000_0000 && Holds(w, n, 0x1_0000_0000)
  }

  function NotNegative(n: int): nat
  {
    if n < 0 then 0 else n
  }

  /** The directive d, which has no width of its own, with a star in its place: the
      int that is the first argument is the width, of either sign, and the conversion
      takes the next argument. */
  lemma StarWidth(fmt: CString, args: Args, d: Spec, n: int)
    requires Recognised(d.c) && d.width == 0 && Int32(args(0).word, n)
    requires fmt == "%" + (FillText(d.fill) + (AltText(d.alt) +
                    ("*" + (PrecisionText(d.precision) + SizeText(d.longs, d.c)))))
    ensures Format(fmt, args) ==
            Convert(d.c, Taken(d).(width := if d.precision == None then n else NotNegative(n)), args(1))
  {
    hide Scan, Numeral, Recognised, Follows, FillText, AltText, PrecisionText, SizeText, Convert, Int32;
    var tail := PrecisionText(d.precision) + SizeText(d.longs, d.c);
    var i := 1 + |FillText(d.fill)| + |AltText(d.alt)|;
    FlagsFirst(fmt, args, d.fill, d.alt, "*" + tail);
    FollowsSplit(fmt, i, "*", tail);
    FollowsAt(fmt, i, "*", 0);
    var f := PLAIN.(padc := FillChar(d.fill), alt := d.alt);
    ScanStar(fmt, args, i, 0, f, n);
    ScanPrecisionAndSize(fmt, args, i + 1, 1, f.(width := n, precision := -1), d.precision, d.longs, d.c);
    SizeLength(d.longs, d.c);
    SoleConversion(fmt, args, Taken(d).(width := if d.precision == None then n else NotNegative(n)), d.c, 1);
  }

  /** Behind a dot, a star is the precision, whatever the int; 0 as well. */
  lemma StarPrecision(fmt: CString, args: Args, d: Spec, n: int)
    requires Recognised(d.c) && d.precision == Some(0) && Int32(args(0).word, n)
    requires fmt == "%" + (FillText(d.fill) + (AltText(d.alt) +
                    (WidthText(d.width) + (".*" + SizeText(d.longs, d.c)))))
    ensures Format(fmt, args) == Convert(d.c, Asked(d).(precision := n), args(1))
  {
    hide Scan, Numeral, Recognised, Follows, FillText, AltText, WidthText, SizeText, Convert, Int32;
    FlagsFirst(fmt, args, d.fill, d.alt, WidthText(d.width) + (".*" + SizeText(d.longs, d.c)));
    var f := PLAIN.(padc := FillChar(d.fill), alt := d.alt);
    ScanWidthDotStar(fmt, args, 1 + |FillText(d.fill)| + |AltText(d.alt)|, f, d, n);
    SoleConversion(fmt, args, Asked(d).(precision := n), d.c, 1);
  }

  lemma ScanWidthDotStar(fmt: CString, args: Args, i: nat, f: Flags, d: Spec, n: int)
    requires Recognised(d.c) && Int32(args(0).word, n) && f.width == -1 && f.precision == -1
    requires var tail := WidthText(d.width) + (".*" + SizeText(d.longs, d.c));
             Follows(fmt, i, tail) && i + |tail| == |fmt|
    ensures var f' := f.(width := if d.width > 0 then d.width else 0, precision := n, lflag := f.lflag + d.longs);
            Scan(fmt, args, i, 0, f) == Scanned(f', |fmt| - 1, 1)
    ensures |fmt| >= 2 && fmt[|fmt| - 1] == d.c
  {
    hide Scan, Numeral, Recognised, Follows, WidthText, SizeText, Int32;
    var j := i + |WidthText(d.width)|;
    FollowsSplit(fmt, i, WidthText(d.width), ".*" + SizeText(d.longs, d.c));
    ScanDotStar(fmt, args, j, f.(width := if d.width > 0 then d.width else -1), d, n);
    ScanWidth(fmt, args, i, 0, f, d.width);
  }

  lemma ScanDotStar(fmt: CString, args: Args, i: nat, f: Flags, d: Spec, n: int)
    requires Recognised(d.c) && Int32(args(0).word, n) && Follows(fmt, i, ".*" + SizeText(d.longs, d.c))
    ensures var f' := f.(width := NotNegative(f.width), precision := n, lflag := f.lflag + d.longs);
            Scan(fmt, args, i, 0, f) == Scanned(f', i + 2 + d.longs, 1)
    ensures i < |fmt| && EndsNumber(At(fmt, i)) && i + 2 + d.longs < |fmt| && fmt[i + 2 + d.longs] == d.c
    ensures |SizeText(d.longs, d.c)| == d.longs + 1
  {
    hide Scan, Recognised, Follows, SizeText, Int32;
    SizeLength(d.longs, d.c);
    FollowsSplit(fmt, i, ".*", SizeText(d.longs, d.c));
    FollowsAt(fmt, i, ".*", 0);
    FollowsAt(fmt, i, ".*", 1);
    ScanDot(fmt, args, i, 0, f);
    ScanStar(fmt, args, i + 1, 0, f.(width := NotNegative(f.width)), n);
    ScanSize(fmt, args, i + 2, 1, f.(width := NotNegative(f.width), precision := n), d.longs, d.c);
  }

  /** The fill flag and the flag #, in front of anything else. */
  lemma FlagsFirst(fmt: CString, args: Args, fill: Fill, alt: bool, tail: string)
    requires fmt == "%" + (FillText(fill) + (AltText(alt) + tail))
    ensures var i := 1 + |FillText(fill)| + |AltText(alt)|;
            && Follows(fmt, i, tail) && i + |tail| == |fmt|
            && Scan(fmt, args, 1, 0, PLAIN) == Scan(fmt, args, i, 0, PLAIN.(padc := FillChar(fill), alt := alt))
  {
    hide Scan, FillText, AltText, FillChar, Follows;
    var i := 1 + |FillText(fill)|;
    PartsFollow(fmt, FillText(fill), AltText(alt), tail);
    ScanFill(fmt, args, 1, 0, fill);
    ScanAlt(fmt, args, i, 0, PLAIN.(padc := FillChar(fill)), alt);
  }

  lemma PartsFollow(fmt: string, first: string, second: string, tail: string)
    requires fmt == "%" + (first + (second + tail))
    ensures Follows(fmt, 1, first) && Follows(fmt, 1 + |first|, second) && Follows(fmt, 1 + |first| + |second|, tail)
    ensures 1 + |first| + |second| + |tail| == |fmt|
  {
    assert fmt[0..|fmt|] == fmt;
    FollowsSplit(fmt, 0, "%", first + (second + tail));
    FollowsSplit(fmt, 1, first, second + tail);
    FollowsSplit(fmt, 1 + |first|, second, tail);
  }

  /** A format that is one directive, whose flags consume the arguments before ap. */
  lemma SoleConversion(fmt: CString, args: Args, f: Flags, c: char, ap: nat)
    requires |fmt| >= 2 && fmt[0] == '%' && fmt[|fmt| - 1] == c && Recognised(c)
    requires Scan(fmt, args, 1, 0, PLAIN) == Scanned(f, |fmt| - 1, ap)
    ensures Format(fmt, args) == Convert(c, f, args(ap))
  {
    hide Scan, Convert, Recognised;
    var p := Directive(fmt, args, 0, 0);
    assert Render(fmt, args, p.next, p.ap) == "";
    assert Convert(c, f, args(ap)) + "" == Convert(c, f, args(ap));
  }

  // ----- Characters, strings and errors -----

  /** %c prints the byte that the argument holds, whatever the rest of the word. */
  lemma CharPrinted(args: Args, b: nat)
    requires b < 256 && Holds(args(0).word, b, 256)
    ensures Format("%c", args) == [b as char]
  {
    var k: int :| args(0).word == b + k * 256;
    assert args(0).word % 256 == b;
    assert Scan("%c", args, 1, 0, PLAIN) == Scanned(PLAIN, 1, 0);
    SoleConversion("%c", args, PLAIN, 'c', 0);
  }

  lemma PercentPrinted(args: Args)
    ensures Format("%%", args) == "%"
  {
    assert Scan("%%", args, 1, 0, PLAIN) == Scanned(PLAIN, 1, 0);
    SoleConversion("%%", args, PLAIN, '%', 0);
  }

  /** Behind a percent sign, a character that is neither a flag, a number, a star nor
      a conversion is printed with the percent sign. */
  lemma UnknownEchoed(args: Args, c: char)
    requires c !in "-0123456789*.#l" && c !in "cesduopx%" && c != '\0'
    ensures Format(['%', c], args) == ['%', c]
  {
    var fmt: CString := ['%', c];
    assert Scan(fmt, args, 1, 0, PLAIN) == Scanned(PLAIN, 1, 0);
    assert Directive(fmt, args, 0, 0) == Piece(fmt[0..2], 2, 0);
    assert Render(fmt, args, 2, 0) == "";
  }

  /** The text t is a field for the first n characters of s: they stand at the left
      end or at the right end, and the rest is filled. */
  ghost predicate Placed(t: string, s: string, n: nat, width: int, left: bool, fill: char, alt: bool)
    requires n <= |s|
  {
    var size := if width > n then width else n;
    var start := if left then 0 else size - n;
    && |t| == size
    && (forall i :: 0 <= i < n ==> t[start + i] == if alt && (s[i] < ' ' || s[i] > '~') then '?' else s[i])
    && (forall i :: 0 <= i < size && !(start <= i < start + n) ==> t[i] == fill)
  }

  /** A string stands on the left of its field with the flag -, else on the right.
      As many characters as the precision admits are printed as they are, save that
      # makes question marks of those outside of ASCII printing range. */
  lemma StringDirective(fmt: CString, args: Args, d: Spec, s: CString)
    requires d.c == 's' && fmt == DirectiveText(d)
    requires s == if args(0).text.Some? then args(0).text.value else "(null)"
    ensures var n := if d.precision.Some? && 0 < d.precision.value < |s| then d.precision.value else |s|;
            var zeros := d.fill.Zeros? || d.precision == Some(0);
            var left := d.fill.Dashes? && !zeros;
            Placed(Format(fmt, args), s, n, d.width, left, if zeros then '0' else ' ', d.alt)
  {
    SoleDirective(fmt, args, d);
    hide DirectiveText, Format, Placed;
    var f := Taken(d);
    assert Convert('s', f, args(0)) == StringText(s, f);
    StringField(s, f);
    hide StringText, Convert;
    var n := Admitted(s, f.precision);
    if f.width != d.width {
      assert d.width == 0 && f.width <= 0;
      SameField(StringText(s, f), s, n, f.width, f.padc == '-', if f.padc == '-' then ' ' else f.padc, d.alt);
    }
  }

  /** The same with a star for the precision: any int that is not negative bounds the
      characters, 0 as well, and a negative one does not. */
  lemma StarString(fmt: CString, args: Args, d: Spec, n: int, s: CString)
    requires d.c == 's' && d.precision == Some(0) && Int32(args(0).word, n)
    requires fmt == "%" + (FillText(d.fill) + (AltText(d.alt) +
                    (WidthText(d.width) + (".*" + SizeText(d.longs, d.c)))))
    requires s == if args(1).text.Some? then args(1).text.value else "(null)"
    ensures Placed(Format(fmt, args), s, if 0 <= n < |s| then n else |s|, d.width, d.fill.Dashes?,
                   if d.fill.Zeros? then '0' else ' ', d.alt)
  {
    StarPrecision(fmt, args, d, n);
    var f := Asked(d).(precision := n);
    assert f.padc == FillChar(d.fill) && f.width == d.width && f.alt == d.alt;
    assert Convert('s', f, args(1)) == StringText(s, f);
    StringField(s, f);
    hide Format, Placed, Convert, StringText;
  }

  /** Without a width it does not matter that there is none. */
  lemma SameField(t: string, s: string, n: nat, width: int, left: bool, fill: char, alt: bool)
    requires n <= |s| && width <= 0 && Placed(t, s, n, width, left, fill, alt)
    ensures Placed(t, s, n, 0, left, fill, alt)
  {
  }

  lemma StringField(s: string, f: Flags)
    ensures Placed(StringText(s, f), s, Admitted(s, f.precision), f.width, f.padc == '-',
                   if f.padc == '-' then ' ' else f.padc, f.alt)
  {
    var n := Admitted(s, f.precision);
    var body := Masked(s[..n], f.alt);
    assert forall i :: 0 <= i < n ==> body[i] == Printable(s[i], f.alt);
    hide Masked;
  }

  /** The number of an error, without its sign. */
  function ErrorNumber(err: int): nat
  {
    if err < 0 then -err else err
  }

  /** The texts of two errors are the same exactly if the errors are, up to the
      sign. */
  lemma ErrorTextsDiffer(err: int, err': int)
    requires -0x8000_0000 < err < 0x8000_0000 && -0x8000_0000 < err' < 0x8000_0000
    ensures ErrorText(err) == ErrorText(err') <==> ErrorNumber(err) == ErrorNumber(err')
  {
    var a, b := ErrorNumber(err), ErrorNumber(err');
    SignIgnored(err);
    SignIgnored(err');
    hide ErrorText, ErrorNumber, Named, Numeral;
    if a != b {
      ErrorTextIs(a);
      ErrorTextIs(b);
      if Named(a) && Named(b) {
        NamesDiffer(a, b);
      } else if Named(a) {
        NoNameIsNumbered(a, Numeral(b, 10));
      } else if Named(b) {
        NoNameIsNumbered(b, Numeral(a, 10));
      } else {
        NumberedDiffer(a, b);
      }
    }
  }

  lemma SignIgnored(err: int)
    requires -0x8000_0000 < err < 0x8000_0000
    ensures ErrorNumber(err) < 0x8000_0000 && ErrorText(err) == ErrorText(ErrorNumber(err))
  {
    hide Signed;
  }

  lemma ErrorTextIs(a: nat)
    requires a < 0x8000_0000
    ensures Named(a) ==> ErrorString(a).Some? && ErrorText(a) == ErrorString(a).value
    ensures !Named(a) ==> ErrorText(a) == "error " + Numeral(a, 10)
  {
    if !Named(a) {
      NumberedText(a);
    }
    hide Numeral, Signed;
  }

  predicate Named(a: nat)
  {
    a <= MAXERROR && ErrorString(a).Some?
  }

  lemma NamesDiffer(a: nat, b: nat)
    requires Named(a) && Named(b) && a != b
    ensures ErrorString(a) != ErrorString(b)
  {
    assert ErrorString(a).value[0] == ErrorString(b).value[0] ==>
             |ErrorString(a).value| != |ErrorString(b).value|;
  }

  lemma NoNameIsNumbered(a: nat, number: string)
    requires Named(a)
    ensures ErrorString(a).value != "error " + number
  {
    assert ErrorString(a).value[0] != ("error " + number)[0];
  }

  lemma NumberedDiffer(a: nat, b: nat)
    requires a != b
    ensures "error " + Numeral(a, 10) != "error " + Numeral(b, 10)
  {
    NumeralValue(a, 10);
    NumeralValue(b, 10);
    hide Numeral, Value;
    assert ("error " + Numeral(a, 10))[6..] == Numeral(a, 10);
    assert ("error " + Numeral(b, 10))[6..] == Numeral(b, 10);
  }

  lemma NumberedText(a: nat)
    requires a < 0x8000_0000 && !Named(a)
    ensures ErrorText(a) == "error " + Numeral(a, 10)
  {
    hide Numeral;
    assert Signed(a, -1, ' ') == "" + Numeral(a, 10);
    ReadAsHeld(a, a);
    assert a == a + 0 * 0x1_0000_0000;
  }

  /** %e of the errors that have names, of either sign, and of the others. */
  lemma ErrorsPrinted(args: Args, n: nat)
    requires n < 0x8000_0000 && (Int32(args(0).word, n) || Int32(args(0).word, 0 - n))
    ensures Format("%e", args) ==
            if n == 1 then "unspecified error" else if n == 2 then "bad process"
            else if n == 3 then "invalid parameter" else if n == 4 then "out of memory"
            else if n == 5 then "out of processes" else if n == 6 then "segmentation fault"
            else if n == 8 then "invalid elf file" else if n == 9 then "process is killed"
            else if n == 10 then "panic failure" else "error " + Numeral(n, 10)
  {
    hide Numeral;
    assert Scan("%e", args, 1, 0, PLAIN) == Scanned(PLAIN, 1, 0);
    SoleConversion("%e", args, PLAIN, 'e', 0);
    hide Format, Scan;
    ReadAsHeld(args(0).word, n);
    ReadAsHeld(args(0).word, 0 - n);
    SignIgnored(AsInt32(args(0).word));
    ErrorTextIs(n);
    hide AsInt32, ErrorText;
  }

  // ----- Formats made of texts and directives -----

  datatype Part = Text(s: string) | Converted(d: Spec)

  /** A text without a percent sign, or a directive with a known conversion. */
  type Item = p: Part | if p.Text? then '%' !in p.s else Recognised(p.d.c) witness Text("")

  function ItemText(item: Item): string
  {
    match item
    case Text(s) => s
    case Converted(d) => DirectiveText(d)
  }

  function ItemsText(items: seq<Item>): string
  {
    if items == [] then "" else ItemText(items[0]) + ItemsText(items[1..])
  }

  /** A text stands for itself, and a directive for the next argument, converted. */
  function ItemMeaning(item: Item, args: Args, ap: nat): string
  {
    match item
    case Text(s) => s
    case Converted(d) => Convert(d.c, Taken(d), args(ap))
  }

  /** Only a directive other than %% takes an argument. */
  function NextArgument(item: Item, ap: nat): nat
  {
    if item.Converted? && item.d.c != '%' then ap + 1 else ap
  }

  function Meaning(items: seq<Item>, args: Args, ap: nat): string
  {
    if items == [] then ""
    else ItemMeaning(items[0], args, ap) + Meaning(items[1..], args, NextArgument(items[0], ap))
  }

  /** Texts and directives mean what they mean one by one. */
  lemma FormatMeans(items: seq<Item>, fmt: CString, args: Args)
    requires fmt == ItemsText(items)
    ensures Format(fmt, args) == Meaning(items, args, 0)
  {
    assert fmt[0..] == fmt;
    MeansFrom(items, fmt, args, 0, 0);
  }

  lemma {:induction false} MeansFrom(items: seq<Item>, fmt: CString, args: Args, i: nat, ap: nat)
    requires i <= |fmt| && fmt[i..] == ItemsText(items)
    ensures Render(fmt, args, i, ap) == Meaning(items, args, ap)
    decreases |items|
  {
    if items == [] {
      assert i == |fmt|;
    } else {
      hide Follows, Render, NextArgument, ItemText, ItemMeaning;
      var item, rest := items[0], items[1..];
      ItemFirst(fmt, i, ItemText(item), ItemsText(rest));
      RenderItem(fmt, args, i, ap, item);
      MeansFrom(rest, fmt, args, i + |ItemText(item)|, NextArgument(item, ap));
    }
  }

  lemma RenderItem(fmt: CString, args: Args, i: nat, ap: nat, item: Item)
    requires Follows(fmt, i, ItemText(item))
    ensures i + |ItemText(item)| <= |fmt|
    ensures var j := i + |ItemText(item)|;
            Render(fmt, args, i, ap) == ItemMeaning(item, args, ap) + Render(fmt, args, j, NextArgument(item, ap))
  {
    hide Render, Convert, Taken, DirectiveText, Follows;
    match item
    case Text(s) => RenderText(fmt, args, i, ap, s);
    case Converted(d) => RenderDirective(fmt, args, i, ap, d);
  }

  lemma RenderText(fmt: CString, args: Args, i: nat, ap: nat, s: string)
    requires Follows(fmt, i, s) && '%' !in s
    ensures i + |s| <= |fmt| && Render(fmt, args, i, ap) == s + Render(fmt, args, i + |s|, ap)
  {
    hide Render;
    assert forall k :: i <= k < i + |s| ==> fmt[k] == fmt[i..i + |s|][k - i];
    LiteralRun(fmt, args, i, i + |s|, ap);
  }

  lemma RenderDirective(fmt: CString, args: Args, i: nat, ap: nat, d: Spec)
    requires Recognised(d.c) && Follows(fmt, i, DirectiveText(d))
    ensures i + |DirectiveText(d)| <= |fmt|
    ensures Render(fmt, args, i, ap) ==
            Convert(d.c, Taken(d), args(ap)) +
            Render(fmt, args, i + |DirectiveText(d)|, if d.c == '%' then ap else ap + 1)
  {
    hide DirectiveText, Convert, Taken, Directive, Recognised;
    DirectiveUnderstood(fmt, args, i, ap, d);
  }

  lemma ItemFirst(fmt: string, i: nat, text: string, rest: string)
    requires i <= |fmt| && fmt[i..] == text + rest
    ensures Follows(fmt, i, text) && fmt[i + |text|..] == rest
  {
    assert fmt[i..i + |text|] == fmt[i..][..|text|] == text;
    assert fmt[i + |text|..] == fmt[i..][|text|..] == rest;
  }
}
