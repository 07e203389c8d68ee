/** The format machine: vprintfmt, the digit printer and the buffer that
    collects the characters, proved against FormatSpec. */
module Printfmt {
  import opened Digits
  import opened FormatSpec
  import opened Wrappers

  const E_INVAL := 3

  /** The sink behind snprintf. It counts every character, but stores only those
      that fit before the last position of the buffer. */
  class SprintBuf {
    const data: array<char>
    const ebuf: nat
    var buf: nat
    var cnt: nat
    ghost const original: seq<char>
    ghost var log: string

    ghost predicate Valid()
      reads this, data
    {
      && ebuf < data.Length == |original|
      && cnt == |log|
      && buf == (if cnt < ebuf then cnt else ebuf)
      && data[..buf] == log[..buf]
      && data[buf..] == original[buf..]
    }

    constructor (str: array<char>, size: nat)
      requires 1 <= size <= str.Length
      ensures Valid() && data == str && ebuf == size - 1 && log == "" && original == str[..]
    {
      data := str;
      ebuf := size - 1;
      buf := 0;
      cnt := 0;
      original := str[..];
      log := "";
    }

    method SprintPutch(c: char)
      requires Valid()
      modifies this, data
      ensures Valid() && log == old(log) + [c]
    {
      cnt := cnt + 1;
      log := log + [c];
      if buf < ebuf {
        data[buf] := c;
        buf := buf + 1;
        assert data[..buf] == old(data[..buf]) + [c];
        assert data[buf..] == old(data[buf..])[1..];
      }
    }
  }

  // ----- Numbers -----

  method Pad(sink: SprintBuf, count: int, c: char)
    requires sink.Valid()
    modifies sink, sink.data
    ensures sink.Valid() && sink.log == old(sink.log) + Repeat(count, c)
  {
    var n := count;
    ghost var done: nat := 0;
    while n > 0
      invariant sink.Valid()
      invariant done + n == count || (done == 0 && n == count)
      invariant n >= 0 || done == 0
      invariant sink.log == old(sink.log) + Repeat(done, c)
    {
      sink.SprintPutch(c);
      RepeatSnoc(done, c);
      done := done + 1;
      n := n - 1;
    }
    assert Repeat(done, c) == Repeat(count, c);
  }

  /** Pad characters go in front of the most significant digit, which the
      recursion reaches first. */
  method PrintNum(sink: SprintBuf, num: nat, base: nat, width: int, padc: char)
    requires sink.Valid() && Base(base)
    modifies sink, sink.data
    ensures sink.Valid() && sink.log == old(sink.log) + Padded(num, base, width, padc)
    decreases num
  {
    var result := num / base;
    var mod := num % base;
    NumeralSplits(num, base);
    ghost var lead := Repeat(width - |Numeral(num, base)|, padc);
    if num >= base {
      PrintNum(sink, result, base, width - 1, padc);
    } else {
      Pad(sink, width - 1, padc);
    }
    ghost var front := if num < base then "" else Numeral(result, base);
    assert sink.log == old(sink.log) + (lead + front);
    sink.SprintPutch(DIGITS[mod]);
    assert lead + front + [DIGITS[mod]] == lead + Numeral(num, base);
  }

  // ----- Strings -----

  method StrNLen(s: CString, len: nat) returns (cnt: nat)
    ensures cnt == if len < |s| then len else |s|
  {
    cnt := 0;
    while cnt < len && At(s, cnt) != '\0'
      invariant cnt <= len && cnt <= |s|
    {
      cnt := cnt + 1;
    }
  }

  /** A negative precision becomes a huge unsigned length. */
  function AsSize(precision: int): nat
    requires -0x8000_0000 <= precision
  {
    if precision < 0 then precision + 0x1_0000_0000_0000_0000 else precision
  }

  /** The characters that the precision admits; the width counts down with them. */
  method PrintCharacters(sink: SprintBuf, p: CString, precision0: int, width0: int, alt: bool) returns (width: int)
    requires sink.Valid()
    modifies sink, sink.data
    ensures sink.Valid()
    ensures var n := Admitted(p, precision0);
            sink.log == old(sink.log) + Masked(p[..n], alt) && width == width0 - n
  {
    ghost var n := Admitted(p, precision0);
    var precision := precision0;
    width := width0;
    var k := 0;
    while At(p, k) != '\0' && (precision < 0 || precision - 1 >= 0)
      invariant sink.Valid() && k <= n && width == width0 - k
      invariant precision == if precision0 < 0 then precision0 else precision0 - k
      invariant sink.log == old(sink.log) + Masked(p[..k], alt)
      decreases |p| - k
    {
      var ch := At(p, k);
      MaskedSnoc(p, k, alt);
      if alt && (ch < ' ' || ch > '~') {
        sink.SprintPutch('?');
      } else {
        sink.SprintPutch(ch);
      }
      precision := if precision < 0 then precision else precision - 1;
      k := k + 1;
      width := width - 1;
    }
  }

  lemma MaskedSnoc(p: CString, k: nat, alt: bool)
    requires k < |p|
    ensures Masked(p[..k + 1], alt) == Masked(p[..k], alt) + [Printable(p[k], alt)]
  {
  }

  /** Padding in front of a string; returns what is left of the width. */
  method PadLeft(sink: SprintBuf, p: CString, f: Flags) returns (width: int)
    requires sink.Valid() && -0x8000_0000 <= f.precision
    modifies sink, sink.data
    ensures sink.Valid()
    ensures sink.log == old(sink.log) + if f.padc != '-' then Repeat(f.width - Admitted(p, f.precision), f.padc) else ""
    ensures if f.padc != '-' then width <= 0 else width == f.width
  {
    width := f.width;
    if width > 0 && f.padc != '-' {
      var len := StrNLen(p, AsSize(f.precision));
      assert len == Admitted(p, f.precision);
      width := width - len;
      Pad(sink, width, f.padc);
      width := if width > 0 then 0 else width;
    } else {
      assert sink.log == old(sink.log) + "";
    }
  }

  method PrintString(sink: SprintBuf, arg: Option<CString>, f: Flags)
    requires sink.Valid() && -0x8000_0000 <= f.precision
    modifies sink, sink.data
    ensures sink.Valid()
    ensures sink.log == old(sink.log) + StringText(if arg.Some? then arg.value else "(null)", f)
  {
    var p: CString := if arg.Some? then arg.value else "(null)";
    ghost var n := Admitted(p, f.precision);
    ghost var lead := if f.padc != '-' then Repeat(f.width - n, f.padc) else "";
    var width := PadLeft(sink, p, f);
    ghost var body := Masked(p[..n], f.alt);
    width := PrintCharacters(sink, p, f.precision, width, f.alt);
    Pad(sink, width, ' ');
    JoinParts(old(sink.log), lead, body, Repeat(width, ' '));
  }

  lemma JoinParts(a: string, lead: string, body: string, tail: string)
    ensures tail == "" ==> a + lead + body + tail == a + (lead + body)
    ensures lead == "" ==> a + lead + body + tail == a + (body + tail)
  {
  }

  // ----- Directives -----

  /** The loop behind the label "reswitch": reads flags until a conversion
      character and leaves the cursor behind it. */
  method ReadDirective(fmt: CString, args: Args, start: nat, ap0: nat) returns (f: Flags, ch: char, i: nat, ap: nat)
    requires start <= |fmt|
    ensures var s := Scan(fmt, args, start, ap0, PLAIN);
            f == s.flags && i == s.pos + 1 && ch == At(fmt, s.pos) && ap == s.ap
    ensures -0x8000_0000 <= f.precision
  {
    var padc, width, precision, lflag, altflag := ' ', -1, -1, 0, false;
    i, ap := start, ap0;
    while true
      invariant start <= i <= |fmt| && -0x8000_0000 <= precision
      invariant Scan(fmt, args, start, ap0, PLAIN)
             == Scan(fmt, args, i, ap, Flags(padc, width, precision, lflag, altflag))
      decreases |fmt| - i
    {
      ch := At(fmt, i);
      if ch == '\0' {
        break;
      }
      i := i + 1;
      if ch == '-' || ch == '0' {
        padc := ch;
      } else if '1' <= ch <= '9' {
        precision, i := ReadNumber(fmt, i);
        if width < 0 {
          width, precision := precision, -1;
        }
      } else if ch == '*' {
        precision := AsInt32(args(ap).word);
        ap := ap + 1;
        if width < 0 {
          width, precision := precision, -1;
        }
      } else if ch == '.' {
        if width < 0 {
          width := 0;
        }
      } else if ch == '#' {
        altflag := true;
      } else if ch == 'l' {
        lflag := lflag + 1;
      } else {
        i := i - 1;
        break;
      }
    }
    f := Flags(padc, width, precision, lflag, altflag);
    i := i + 1;
  }

  /** The digits from the one just read on. */
  method ReadNumber(fmt: CString, i0: nat) returns (precision: nat, i: nat)
    requires 1 <= i0 <= |fmt| && IsDigit(fmt[i0 - 1])
    ensures i == DigitsEnd(fmt, i0 - 1) && i0 <= i
    ensures IsNumeral(fmt[i0 - 1..i], 10) && precision == Value(fmt[i0 - 1..i], 10)
  {
    precision, i := 0, i0;
    var ch := fmt[i - 1];
    SnocDigit(fmt, i - 1, i - 1);
    precision := precision * 10 + (ch as int - '0' as int);
    while IsDigit(At(fmt, i))
      invariant i0 <= i <= |fmt|
      invariant DigitsEnd(fmt, i0 - 1) == DigitsEnd(fmt, i)
      invariant IsNumeral(fmt[i0 - 1..i], 10) && precision == Value(fmt[i0 - 1..i], 10)
      decreases |fmt| - i
    {
      ch := At(fmt, i);
      SnocDigit(fmt, i0 - 1, i);
      precision := precision * 10 + (ch as int - '0' as int);
      i := i + 1;
    }
  }

  lemma SnocDigit(fmt: CString, i: nat, j: nat)
    requires i <= j < |fmt| && IsDigit(fmt[j]) && IsNumeral(fmt[i..j], 10)
    ensures IsNumeral(fmt[i..j + 1], 10)
    ensures Value(fmt[i..j + 1], 10) == Value(fmt[i..j], 10) * 10 + (fmt[j] as int - '0' as int)
  {
    assert fmt[i..j + 1] == fmt[i..j] + [fmt[j]];
    SnocValue(fmt[i..j], fmt[j], 10);
  }

  // ----- The machine -----

  /** 1 if an error conversion can occur in the format, else 0: the formats that
      the error conversion itself uses are below all others. */
  ghost function Level(fmt: CString): nat
  {
    if exists j, k :: 0 <= j < k < |fmt| && fmt[j] == '%' && fmt[k] == 'e' then 1 else 0
  }

  /** The cursor goes back to just behind the percent sign of the directive. */
  method Rewind(fmt: CString, i: nat, ghost start: nat) returns (r: nat)
    requires 1 <= start < i <= |fmt| + 1 && fmt[start - 1] == '%'
    requires forall k :: start <= k < i - 1 ==> fmt[k] != '%'
    ensures r == start
  {
    r := i - 1;
    while fmt[r - 1] != '%'
      invariant start <= r < i
      decreases r
    {
      r := r - 1;
    }
  }

  /** The machine writes exactly the text that the format denotes, whatever the
      format and the arguments are. */
  method VPrintFmt(sink: SprintBuf, fmt: CString, args: Args)
    requires sink.Valid()
    modifies sink, sink.data
    ensures sink.Valid() && sink.log == old(sink.log) + Format(fmt, args)
    decreases Level(fmt), 2, 0
  {
    ghost var all := sink.log + Format(fmt, args);
    var i, ap := 0, 0;
    while true
      invariant i <= |fmt| && sink.Valid()
      invariant all == sink.log + Render(fmt, args, i, ap)
      decreases |fmt| - i
    {
      var ch;
      ch, i := PrintLiterals(sink, fmt, i, args, ap);
      if ch == '\0' {
        return;
      }
      i, ap := PrintDirective(sink, fmt, args, i, ap);
    }
  }

  /** One directive, whose percent sign has just been read. */
  method PrintDirective(sink: SprintBuf, fmt: CString, args: Args, start: nat, ap0: nat) returns (i: nat, ap: nat)
    requires sink.Valid() && 1 <= start <= |fmt| && fmt[start - 1] == '%'
    modifies sink, sink.data
    ensures sink.Valid() && start <= i <= |fmt|
    ensures sink.log + Render(fmt, args, i, ap) == old(sink.log) + Render(fmt, args, start - 1, ap0)
    decreases Level(fmt), 1, 0
  {
    ghost var s := Scan(fmt, args, start, ap0, PLAIN);
    var f, ch;
    f, ch, i, ap := ReadDirective(fmt, args, start, ap0);
    if Recognised(ch) {
      PrintConversion(sink, ch, f, args(ap), Level(fmt));
      ap := if ch == '%' then ap else ap + 1;
      ghost var p := Directive(fmt, args, start - 1, ap0);
      assert p.text == Convert(ch, f, args(s.ap)) && p.next == i && p.ap == ap;
      RecognisedPiece(old(sink.log), fmt, args, start - 1, ap0);
      assert sink.log == old(sink.log) + p.text;
    } else {
      EchoPiece(sink.log, fmt, args, start, ap0);
      sink.SprintPutch('%');
      i := Rewind(fmt, i, start);
      assert i == start && ap == s.ap;
    }
  }

  lemma RecognisedPiece(log: string, fmt: CString, args: Args, i: nat, ap: nat)
    requires i < |fmt| && fmt[i] == '%' && Recognised(At(fmt, Scan(fmt, args, i + 1, ap, PLAIN).pos))
    ensures var p := Directive(fmt, args, i, ap);
            log + p.text + Render(fmt, args, p.next, p.ap) == log + Render(fmt, args, i, ap)
  {
    var p := Directive(fmt, args, i, ap);
    var rest := Render(fmt, args, p.next, p.ap);
    assert log + p.text + rest == log + (p.text + rest);
  }

  lemma EchoPiece(log: string, fmt: CString, args: Args, start: nat, ap: nat)
    requires 1 <= start <= |fmt| && fmt[start - 1] == '%'
    requires !Recognised(At(fmt, Scan(fmt, args, start, ap, PLAIN).pos))
    ensures log + ['%'] + Render(fmt, args, start, Scan(fmt, args, start, ap, PLAIN).ap)
         == log + Render(fmt, args, start - 1, ap)
  {
    EchoIsRewind(fmt, args, start, ap);
    var rest := Render(fmt, args, start, Scan(fmt, args, start, ap, PLAIN).ap);
    assert log + ['%'] + rest == log + ("%" + rest);
  }

  /** Copies characters up to a percent sign or the terminator, and reads it. */
  method PrintLiterals(sink: SprintBuf, fmt: CString, i0: nat, ghost args: Args, ghost ap: nat) returns (ch: char,
                       i: nat)
    requires sink.Valid() && i0 <= |fmt|
    modifies sink, sink.data
    ensures sink.Valid() && i0 < i <= |fmt| + 1
    ensures ch == At(fmt, i - 1) && (ch == '%' || ch == '\0')
    ensures sink.log + Render(fmt, args, i - 1, ap) == old(sink.log) + Render(fmt, args, i0, ap)
  {
    hide Render;
    ghost var all := sink.log + Render(fmt, args, i0, ap);
    i := i0;
    ch := At(fmt, i);
    i := i + 1;
    while ch != '%'
      invariant i0 < i <= |fmt| + 1 && sink.Valid() && ch == At(fmt, i - 1)
      invariant all == sink.log + Render(fmt, args, i - 1, ap)
      decreases |fmt| - i
    {
      if ch == '\0' {
        return;
      }
      LiteralPiece(sink.log, fmt, args, i - 1, ap);
      sink.SprintPutch(ch);
      ch := At(fmt, i);
      i := i + 1;
    }
  }

  lemma LiteralPiece(log: string, fmt: CString, args: Args, i: nat, ap: nat)
    requires i < |fmt| && fmt[i] != '%'
    ensures log + Render(fmt, args, i, ap) == log + [fmt[i]] + Render(fmt, args, i + 1, ap)
  {
  }

  method PrintConversion(sink: SprintBuf, c: char, f: Flags, arg: Slot, ghost level: nat)
    requires sink.Valid() && Recognised(c) && -0x8000_0000 <= f.precision
    requires c == 'e' ==> level > 0
    modifies sink, sink.data
    ensures sink.Valid() && sink.log == old(sink.log) + Convert(c, f, arg)
    decreases level, 0, 1
  {
    if c == 'c' {
      sink.SprintPutch((arg.word % 256) as char);
    } else if c == 'e' {
      PrintError(sink, AsInt32(arg.word), level);
    } else if c == 's' {
      PrintString(sink, arg.text, f);
    } else if c == '%' {
      sink.SprintPutch(c);
    } else {
      PrintNumber(sink, c, f, arg);
    }
  }

  method PrintNumber(sink: SprintBuf, c: char, f: Flags, arg: Slot)
    requires sink.Valid() && c in "duopx"
    modifies sink, sink.data
    ensures sink.Valid() && sink.log == old(sink.log) + Convert(c, f, arg)
  {
    if c == 'd' {
      PrintSigned(sink, SignedArg(f, arg.word), f);
    } else if c == 'u' {
      PrintNum(sink, UnsignedArg(f, arg.word), 10, f.width, f.padc);
    } else if c == 'o' {
      PrintNum(sink, UnsignedArg(f, arg.word), 8, f.width, f.padc);
    } else if c == 'p' {
      PrintPointer(sink, arg.word, f);
    } else {
      PrintNum(sink, UnsignedArg(f, arg.word), 16, f.width, f.padc);
    }
  }

  method PrintPointer(sink: SprintBuf, w: Word, f: Flags)
    requires sink.Valid()
    modifies sink, sink.data
    ensures sink.Valid() && sink.log == old(sink.log) + ("0x" + Padded(w, 16, f.width, f.padc))
  {
    sink.SprintPutch('0');
    sink.SprintPutch('x');
    assert sink.log == old(sink.log) + "0x";
    PrintNum(sink, w, 16, f.width, f.padc);
  }

  method PrintSigned(sink: SprintBuf, v: int, f: Flags)
    requires sink.Valid()
    modifies sink, sink.data
    ensures sink.Valid() && sink.log == old(sink.log) + Signed(v, f.width, f.padc)
  {
    if v < 0 {
      sink.SprintPutch('-');
      PrintNum(sink, -v, 10, f.width, f.padc);
    } else {
      PrintNum(sink, v, 10, f.width, f.padc);
    }
  }

  const ERROR_FORMAT: CString := "error %d"
  const STRING_FORMAT: CString := "%s"

  /** The error conversion calls the formatter again, on one of two formats. */
  method PrintError(sink: SprintBuf, err0: int, ghost level: nat)
    requires sink.Valid() && level > 0 && -0x8000_0000 <= err0 < 0x8000_0000
    modifies sink, sink.data
    ensures sink.Valid() && sink.log == old(sink.log) + ErrorText(err0)
    decreases level, 0, 0
  {
    var err := if err0 < 0 then -err0 else err0;
    if err > MAXERROR || ErrorString(err).None? {
      var slots := (k: nat) => Slot(err, None);
      ErrorFormat(slots);
      VPrintFmt(sink, ERROR_FORMAT, slots);
    } else {
      var slots := (k: nat) => Slot(0, ErrorString(err));
      StringFormat(slots, ErrorString(err).value);
      VPrintFmt(sink, STRING_FORMAT, slots);
    }
  }

  lemma ErrorFormat(args: Args)
    ensures Format(ERROR_FORMAT, args) == "error " + Signed(AsInt32(args(0).word), -1, ' ')
    ensures Level(ERROR_FORMAT) == 0
  {
    LiteralRun(ERROR_FORMAT, args, 0, 6, 0);
    assert ERROR_FORMAT[0..6] == "error ";
    assert Scan(ERROR_FORMAT, args, 7, 0, PLAIN) == Scanned(PLAIN, 7, 0);
    assert Render(ERROR_FORMAT, args, 6, 0) == Convert('d', PLAIN, args(0)) + Render(ERROR_FORMAT, args, 8, 1);
  }

  lemma StringFormat(args: Args, s: CString)
    requires args(0).text == Some(s)
    ensures Format(STRING_FORMAT, args) == s && Level(STRING_FORMAT) == 0
  {
    assert Scan(STRING_FORMAT, args, 1, 0, PLAIN) == Scanned(PLAIN, 1, 0);
    assert Render(STRING_FORMAT, args, 0, 0) == Convert('s', PLAIN, args(0)) + Render(STRING_FORMAT, args, 2, 1);
    assert StringText(s, PLAIN) == "" + Masked(s[..|s|], false);
    assert Masked(s[..|s|], false) == s;
  }

  /** The return value is the length of the whole text; the buffer receives as
      much of it as fits before the terminator, and nothing else changes. */
  method VSNPrintF(str: array?<char>, size: nat, fmt: CString, args: Args) returns (cnt: int)
    requires str != null ==> size <= str.Length
    modifies str
    ensures str == null || size == 0 ==> cnt == -E_INVAL && (str != null ==> str[..] == old(str[..]))
    ensures str != null && size > 0 ==>
              var text := Format(fmt, args);
              var n := if |text| < size - 1 then |text| else size - 1;
              cnt == |text| && str[..] == text[..n] + ['\0'] + old(str[n + 1..])
  {
    if str == null || size == 0 {
      return -E_INVAL;
    }
    hide Format;
    var b := new SprintBuf(str, size);
    VPrintFmt(b, fmt, args);
    assert b.log == "" + Format(fmt, args) == Format(fmt, args);
    Terminated(b.log, b.original, str[..], b.buf);
    b.data[b.buf] := '\0';
    cnt := b.cnt;
  }

  lemma Terminated(log: string, original: string, data: string, k: nat)
    requires k < |data| == |original| && k <= |log| && data[..k] == log[..k] && data[k..] == original[k..]
    ensures data[k := '\0'] == log[..k] + ['\0'] + original[k + 1..]
  {
    assert data[k + 1..] == data[k..][1..] && original[k + 1..] == original[k..][1..];
  }
}
