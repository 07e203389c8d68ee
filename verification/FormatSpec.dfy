/** What a format string means: the text it produces for a list of arguments,
    described without the program's cursor and its rewinding. */
module FormatSpec {
  import opened Digits
  import opened Wrappers

  /** A string that fits into memory, without its terminator. */
  type CString = s: string | |s| < 0x8000_0000_0000_0000 && '\0' !in s

  type Word = x: nat | x < 0x1_0000_0000_0000_0000

  /** One argument slot: a machine word, and the string it points to, if any. */
  datatype Slot = Slot(word: Word, text: Option<CString>)

  /** The slots of an argument list; a conversion reads as much of a slot as its
      type asks for. */
  type Args = nat -> Slot

  function AsUInt32(w: Word): (v: nat)
    ensures v < 0x1_0000_0000
  {
    w % 0x1_0000_0000
  }

  function AsInt32(w: Word): (v: int)
    ensures -0x8000_0000 <= v < 0x8000_0000
  {
    var u := AsUInt32(w);
    if u < 0x8000_0000 then u else u - 0x1_0000_0000
  }

  function AsInt64(w: Word): (v: int)
    ensures -0x8000_0000_0000_0000 <= v < 0x8000_0000_0000_0000
  {
    if w < 0x8000_0000_0000_0000 then w else w - 0x1_0000_0000_0000_0000
  }

  /** The word holds v in two's complement on so many values. */
  ghost predicate Holds(w: Word, v: int, values: nat)
  {
    exists k: int :: w == v + k * values
  }

  /** A word is read as the number on 32 or 64 bits that it holds. */
  lemma ReadAsHeld(w: Word, v: int)
    ensures 0 <= v < 0x1_0000_0000 ==> (AsUInt32(w) == v <==> Holds(w, v, 0x1_0000_0000))
    ensures -0x8000_0000 <= v < 0x8000_0000 ==> (AsInt32(w) == v <==> Holds(w, v, 0x1_0000_0000))
    ensures -0x8000_0000_0000_0000 <= v < 0x8000_0000_0000_0000 ==>
              (AsInt64(w) == v <==> Holds(w, v, 0x1_0000_0000_0000_0000))
  {
    var q := w / 0x1_0000_0000;
    assert w == AsUInt32(w) + q * 0x1_0000_0000;
    assert w == AsInt32(w) + q * 0x1_0000_0000 || w == AsInt32(w) + (q + 1) * 0x1_0000_0000;
    assert w == AsInt64(w) + 0 * 0x1_0000_0000_0000_0000 || w == AsInt64(w) + 1 * 0x1_0000_0000_0000_0000;
  }

  /** The character at a position, the terminator included. */
  function At(fmt: CString, i: nat): (c: char)
    requires i <= |fmt|
    ensures c == '\0' <==> i == |fmt|
  {
    if i < |fmt| then fmt[i] else '\0'
  }

  predicate IsDigit(c: char)
  {
    '0' <= c <= '9'
  }

  // ----- Flags, width and precision -----

  datatype Flags = Flags(padc: char, width: int, precision: int, lflag: nat, alt: bool)

  const PLAIN := Flags(' ', -1, -1, 0, false)

  /** A number fills the width first and the precision afterwards. */
  function FillIn(f: Flags, n: int): Flags
  {
    if f.width < 0 then f.(width := n, precision := -1) else f.(precision := n)
  }

  /** The end of the run of digits at i. */
  function DigitsEnd(fmt: CString, i: nat): (j: nat)
    requires i <= |fmt|
    ensures i <= j <= |fmt|
    ensures forall k :: i <= k < j ==> IsDigit(fmt[k])
    ensures !IsDigit(At(fmt, j))
    decreases |fmt| - i
  {
    if IsDigit(At(fmt, i)) then DigitsEnd(fmt, i + 1) else i
  }

  lemma DigitsAreNumeral(s: string)
    requires forall k :: 0 <= k < |s| ==> IsDigit(s[k])
    ensures IsNumeral(s, 10)
  {
  }

  /** What stands between a percent sign and the conversion character. */
  datatype Scanned = Scanned(flags: Flags, pos: nat, ap: nat)

  function Scan(fmt: CString, args: Args, i: nat, ap: nat, f: Flags): (r: Scanned)
    requires i <= |fmt|
    ensures i <= r.pos <= |fmt|
    ensures forall k :: i <= k < r.pos ==> fmt[k] != '%'
    ensures At(fmt, r.pos) !in "-0123456789*.#l"
    decreases |fmt| - i
  {
    var c := At(fmt, i);
    if c == '-' || c == '0' then Scan(fmt, args, i + 1, ap, f.(padc := c))
    else if IsDigit(c) then
      var j := DigitsEnd(fmt, i);
      DigitsAreNumeral(fmt[i..j]);
      Scan(fmt, args, j, ap, FillIn(f, Value(fmt[i..j], 10)))
    else if c == '*' then Scan(fmt, args, i + 1, ap + 1, FillIn(f, AsInt32(args(ap).word)))
    else if c == '.' then Scan(fmt, args, i + 1, ap, if f.width < 0 then f.(width := 0) else f)
    else if c == '#' then Scan(fmt, args, i + 1, ap, f.(alt := true))
    else if c == 'l' then Scan(fmt, args, i + 1, ap, f.(lflag := f.lflag + 1))
    else Scanned(f, i, ap)
  }

  // ----- Conversions -----

  const MAXERROR := 24

  function ErrorString(err: nat): Option<CString>
    requires err <= MAXERROR
  {
    match err
    case 1 => Some("unspecified error")
    case 2 => Some("bad process")
    case 3 => Some("invalid parameter")
    case 4 => Some("out of memory")
    case 5 => Some("out of processes")
    case 6 => Some("segmentation fault")
    case 8 => Some("invalid elf file")
    case 9 => Some("process is killed")
    case 10 => Some("panic failure")
    case _ => None
  }

  function Signed(v: int, width: int, padc: char): string
  {
    if v < 0 then "-" + Padded(-v, 10, width, padc) else Padded(v, 10, width, padc)
  }

  /** The text of an error code, whichever its sign. */
  function ErrorText(err: int): string
    requires -0x8000_0000 <= err < 0x8000_0000
  {
    var a := if err < 0 then -err else err;
    if a <= MAXERROR && ErrorString(a).Some? then ErrorString(a).value
    else "error " + Signed(AsInt32(a), -1, ' ')
  }

  function Printable(c: char, alt: bool): char
  {
    if alt && (c < ' ' || c > '~') then '?' else c
  }

  function Masked(s: string, alt: bool): (t: string)
    ensures |t| == |s| && forall i :: 0 <= i < |s| ==> t[i] == Printable(s[i], alt)
  {
    seq(|s|, i requires 0 <= i < |s| => Printable(s[i], alt))
  }

  /** How many characters of s a precision admits. */
  function Admitted(s: string, precision: int): (n: nat)
    ensures n <= |s|
  {
    if precision < 0 || precision > |s| then |s| else precision
  }

  /** At most precision characters, filled up to the width: on the left with
      the pad character, or on the right with spaces. */
  function StringText(s: string, f: Flags): string
  {
    var n := Admitted(s, f.precision);
    var body := Masked(s[..n], f.alt);
    if f.padc != '-' then Repeat(f.width - n, f.padc) + body
    else body + Repeat(f.width - n, ' ')
  }

  function SignedArg(f: Flags, w: Word): int
  {
    if f.lflag >= 1 then AsInt64(w) else AsInt32(w)
  }

  function UnsignedArg(f: Flags, w: Word): nat
  {
    if f.lflag >= 1 then w else AsUInt32(w)
  }

  predicate Recognised(c: char)
  {
    c in "cesduopx%"
  }

  /** The text of one conversion; "%%" is the only one that reads no argument. */
  function Convert(c: char, f: Flags, arg: Slot): string
    requires Recognised(c)
  {
    match c
    case 'c' => [(arg.word % 256) as char]
    case 'e' => ErrorText(AsInt32(arg.word))
    case 's' => StringText(if arg.text.Some? then arg.text.value else "(null)", f)
    case 'd' => Signed(SignedArg(f, arg.word), f.width, f.padc)
    case 'u' => Padded(UnsignedArg(f, arg.word), 10, f.width, f.padc)
    case 'o' => Padded(UnsignedArg(f, arg.word), 8, f.width, f.padc)
    case 'p' => "0x" + Padded(arg.word, 16, f.width, f.padc)
    case 'x' => Padded(UnsignedArg(f, arg.word), 16, f.width, f.padc)
    case _ => "%"
  }

  datatype Piece = Piece(text: string, next: nat, ap: nat)

  /** The directive whose percent sign is at i. An unrecognised one stands for
      itself, up to and including the offending character. */
  function Directive(fmt: CString, args: Args, i: nat, ap: nat): (p: Piece)
    requires i < |fmt| && fmt[i] == '%'
    ensures i < p.next <= |fmt|
  {
    var s := Scan(fmt, args, i + 1, ap, PLAIN);
    var c := At(fmt, s.pos);
    if Recognised(c) then
      Piece(Convert(c, s.flags, args(s.ap)), s.pos + 1, if c == '%' then s.ap else s.ap + 1)
    else
      var end := if c == '\0' then s.pos else s.pos + 1;
      Piece(fmt[i..end], end, s.ap)
  }

  /** The text of a format from position i on, with the arguments from ap on. */
  function Render(fmt: CString, args: Args, i: nat, ap: nat): string
    requires i <= |fmt|
    decreases |fmt| - i
  {
    if i == |fmt| then ""
    else if fmt[i] != '%' then [fmt[i]] + Render(fmt, args, i + 1, ap)
    else
      var p := Directive(fmt, args, i, ap);
      p.text + Render(fmt, args, p.next, p.ap)
  }

  /** The text a format produces. */
  function Format(fmt: CString, args: Args): string
  {
    Render(fmt, args, 0, 0)
  }

  /** A stretch without percent signs stands for itself. */
  lemma {:induction false} LiteralRun(fmt: CString, args: Args, i: nat, j: nat, ap: nat)
    requires i <= j <= |fmt| && forall k :: i <= k < j ==> fmt[k] != '%'
    ensures Render(fmt, args, i, ap) == fmt[i..j] + Render(fmt, args, j, ap)
    decreases j - i
  {
    if i < j {
      LiteralRun(fmt, args, i + 1, j, ap);
      assert fmt[i..j] == [fmt[i]] + fmt[i + 1..j];
      ConcatAssociative([fmt[i]], fmt[i + 1..j], Render(fmt, args, j, ap));
    } else {
      assert fmt[i..j] == "";
    }
  }

  lemma ConcatAssociative(a: string, b: string, c: string)
    ensures a + b + c == a + (b + c)
  {
  }

  /** After the program's rewinding, an unrecognised directive reads as a percent
      sign followed by literal text: the same text as its verbatim echo. */
  lemma EchoIsRewind(fmt: CString, args: Args, start: nat, ap: nat)
    requires 1 <= start <= |fmt| && fmt[start - 1] == '%'
    requires !Recognised(At(fmt, Scan(fmt, args, start, ap, PLAIN).pos))
    ensures Render(fmt, args, start - 1, ap) == "%" + Render(fmt, args, start, Scan(fmt, args, start, ap, PLAIN).ap)
  {
    hide Scan, Convert;
    var s := Scan(fmt, args, start, ap, PLAIN);
    var p := Directive(fmt, args, start - 1, ap);
    var rest := Render(fmt, args, p.next, s.ap);
    LiteralRun(fmt, args, start, p.next, s.ap);
    assert p.text == fmt[start - 1..p.next];
    assert p.text + rest == "%" + (fmt[start..p.next] + rest);
  }
}
