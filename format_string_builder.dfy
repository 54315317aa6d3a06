/**
 * org.openscience.cdk.io.FormatStringBuilder: a printf-like builder that
 * walks a format string with an index, copies literal text into a buffer
 * and renders one argument per `format` call. Each method is proved to
 * produce the text module FormatText describes.
 */
module FormatStringBuilders {
  import opened Wrappers
  import opened FormatText

  /** The exceptions the builder throws. */
  datatype FormatError = IllegalArgument(message: string) | NullPointer

  const MalformedFormat := "Malformed format"
  const ExpectedChar := "Expected a char format"
  const ExpectedNumber := "Expected a float format"
  const ExpectedString := "Expected a String format"

  /**
   * What a `format(x)` call leaves behind, given the buffer `b0` before it
   * and the scan from the old index: the literal text is always copied;
   * then no conversion left is a NullPointerException (the code reads
   * `fmt.type` of a null record), a malformed directive or a conversion of
   * another type is an IllegalArgumentException, and a matching conversion
   * appends `render(fmt)`.
   */
  ghost predicate Emits(b0: string, scan: Scanned, want: ConversionType, message: string,
                        render: Format -> string, buffer: string, r: Result<(), FormatError>)
  {
    match scan.outcome
    case End => r == Err(NullPointer) && buffer == b0 + scan.text
    case Malformed => r == Err(IllegalArgument(MalformedFormat)) && buffer == b0 + scan.text
    case Found(f) =>
      if f.kind != want then r == Err(IllegalArgument(message)) && buffer == b0 + scan.text
      else r == Ok(()) && buffer == b0 + scan.text + render(f)
  }

  lemma PrependTwice(a: string, b: string, r: Scanned)
    ensures Prepend(a, Prepend(b, r)) == Prepend(a + b, r)
  {
    assert a + (b + r.text) == (a + b) + r.text;
  }

  /** One step of the scan at a character of the format. */
  lemma ScanAt(s: string, i: nat)
    requires i < |s|
    ensures s[i] != '%' ==> Scan(s, i) == Prepend([s[i]], Scan(s, i + 1))
    ensures s[i] == '%' ==> match DirectiveAt(s, i)
      case Conversion(f, next) => Scan(s, i) == Scanned([], next, Found(f))
      case Literal(t, next) => Scan(s, i) == Prepend(t, Scan(s, next))
      case Bad(at) => Scan(s, i) == Scanned([], at, Malformed)
  {
  }

  lemma Concat(a: string, b: string, c: string)
    ensures (a + b) + c == a + (b + c)
  {
  }

  lemma Associate(a: string, b: string, c: string, d: string)
    ensures a + b + c + d == a + (b + c + d)
  {
  }

  class FormatStringBuilder {
    /** The format string. */
    var format: string
    /** The text built so far (the StringBuilder). */
    var buffer: string
    /** The next character of `format` to read. */
    var index: int

    ghost predicate Valid()
      reads this
    {
      0 <= index <= |format|
    }

    constructor (format: string)
      ensures Valid() && this.format == format && buffer == [] && index == 0
    {
      new;
      ResetFormat(format);
    }

    /** `reset(String)`: a new format, an empty buffer, index 0. */
    method ResetFormat(format: string)
      modifies this
      ensures Valid() && this.format == format && buffer == [] && index == 0
    {
      Reset();
      this.format := format;
    }

    /** `reset()`: the same format, an empty buffer, index 0. */
    method Reset()
      modifies this
      ensures Valid() && format == old(format) && buffer == [] && index == 0
    {
      buffer := [];
      index := 0;
    }

    /** `skipDigits`: reads the maximal run of digits at the index and returns its Java `int` value. */
    method SkipDigits() returns (value: int)
      requires Valid()
      modifies this
      ensures Valid() && format == old(format) && buffer == old(buffer)
      ensures index == SkipEnd(format, old(index))
      ensures value == IntValue(format[old(index)..index])
    {
      value := 0;
      while index < |format|
        invariant old(index) <= index <= |format|
        invariant format == old(format) && buffer == old(buffer)
        invariant SkipEnd(format, index) == SkipEnd(format, old(index))
        invariant value == IntValue(format[old(index)..index])
        decreases |format| - index
      {
        var ch := format[index];
        if IsDigit(ch) {
          ghost var run := format[old(index)..index + 1];
          assert run[..|run| - 1] == format[old(index)..index];
          index := index + 1;
          value := Wrap32(value * 10 + (ch as int - '0' as int));
        } else {
          break;
        }
      }
    }

    /** The flags loop of a directive: from the '%' at the index, reads flag characters; stops on the first other character, or fails when the format ends first. */
    method ReadFlags() returns (run: FlagRun, ch: char)
      requires Valid() && index < |format|
      modifies this
      ensures Valid() && format == old(format) && buffer == old(buffer)
      ensures run == ScanFlags(format, old(index), {})
      ensures index == run.at
      ensures run.Flags? ==> ch == format[index]
    {
      var flags: set<Flag> := {};
      ch := format[index];
      var repeat := true;
      while repeat
        invariant old(index) <= index < |format|
        invariant format == old(format) && buffer == old(buffer)
        invariant repeat ==> ScanFlags(format, old(index), {}) == ScanFlags(format, index, flags)
        invariant !repeat ==> ScanFlags(format, old(index), {}) == Flags(flags, index) && ch == format[index]
        decreases |format| - index
      {
        if index + 1 >= |format| {
          return FlagsCutOff(index), ch;
        }
        index := index + 1;
        ch := format[index];
        match ch
        case '-' => flags := flags + {Left};
        case '+' => flags := flags + {Plus};
        case ' ' => flags := flags + {Space};
        case '#' => flags := flags + {Special};
        case '0' => flags := flags + {ZeroPad};
        case '\'' => flags := flags + {Grouping};
        case _ => repeat := false;
      }
      run := Flags(flags, index);
    }

    /** The conversion character of a directive, at the index, with the flags, width and precision already read; "%%" and unknown conversions are copied to the buffer. */
    method ReadConversion(flags: set<Flag>, width: int, precision: Precision) returns (d: Directive)
      requires Valid()
      modifies this
      ensures Valid() && format == old(format)
      ensures d == Convert(format, old(index), flags, width, precision)
      ensures index == if d.Bad? then d.at else d.next
      ensures buffer == old(buffer) + if d.Literal? then d.text else []
    {
      if index >= |format| {
        return Bad(index);
      }
      var ch := format[index];
      index := index + 1;
      match ch
      case 'c' => d := Conversion(Format(flags, width, precision, CharType, 10), index);
      case 's' => d := Conversion(Format(flags, width, precision, StringType, 10), index);
      case '%' =>
        buffer := buffer + ['%'];
        d := Literal("%", index);
      case 'o' => d := Conversion(Format(flags, width, precision, DecimalType, 8), index);
      case 'X' => d := Conversion(Format(flags + {Large}, width, precision, DecimalType, 16), index);
      case 'x' => d := Conversion(Format(flags, width, precision, DecimalType, 16), index);
      case 'd' => d := Conversion(Format(flags, width, precision, DecimalType, 10), index);
      case 'i' => d := Conversion(Format(flags, width, precision, DecimalType, 10), index);
      case 'f' => d := Conversion(Format(flags, width, precision, FloatType, 10), index);
      case 'g' => d := Conversion(Format(flags, width, precision, FloatType, 10), index);
      case 'e' => d := Conversion(Format(flags + {Sci}, width, precision, FloatType, 10), index);
      case 'E' => d := Conversion(Format(flags + {Sci, Upper}, width, precision, FloatType, 10), index);
      case _ =>
        buffer := buffer + ['%', ch];
        d := Literal(['%', ch], index);
    }

    /** The optional precision and the conversion character of a directive, with the index just past the width. */
    method ReadPrecision(flags: set<Flag>, width: int) returns (d: Directive)
      requires Valid()
      modifies this
      ensures Valid() && format == old(format)
      ensures d == AfterWidth(format, flags, width, old(index))
      ensures index == if d.Bad? then d.at else d.next
      ensures buffer == old(buffer) + if d.Literal? then d.text else []
    {
      if index >= |format| {
        return Bad(index);
      }
      var precision: Precision := -1;
      if format[index] == '.' {
        index := index + 1;
        if index >= |format| {
          return Bad(index);
        }
        var p := SkipDigits();
        precision := if p < 0 then 0 else p;
      }
      d := ReadConversion(flags, width, precision);
    }

    /** One directive, from its '%' at the index to just past its conversion character. */
    method NextDirective() returns (d: Directive)
      requires Valid() && index < |format| && format[index] == '%'
      modifies this
      ensures Valid() && format == old(format)
      ensures d == DirectiveAt(format, old(index))
      ensures index == if d.Bad? then d.at else d.next
      ensures buffer == old(buffer) + if d.Literal? then d.text else []
    {
      var run, ch := ReadFlags();
      if run.FlagsCutOff? {
        return Bad(run.at);
      }
      var width := -1;
      if IsDigit(ch) {
        width := SkipDigits();
      }
      d := ReadPrecision(run.flags, width);
    }

    /** `getFormat`: copies literal text to the buffer up to the next conversion, which it returns; `End` stands for the null return. */
    method GetFormat() returns (outcome: Outcome)
      requires Valid()
      modifies this
      ensures Valid() && format == old(format)
      ensures var r := Scan(format, old(index));
        buffer == old(buffer) + r.text && index == r.next && outcome == r.outcome
    {
      ghost var b0, i0 := buffer, index;
      ghost var text: string := [];
      while index < |format|
        invariant Valid() && format == old(format)
        invariant buffer == b0 + text
        invariant Prepend(text, Scan(format, index)) == Scan(format, i0)
        decreases |format| - index
      {
        ghost var piece;
        var done;
        done, outcome, piece := Step();
        if done {
          assert text + [] == text;
          return;
        }
        PrependTwice(text, piece, Scan(format, index));
        Concat(b0, text, piece);
        text := text + piece;
      }
      assert text + [] == text;
      return End;
    }

    /** One pass of the `getFormat` loop: a literal character, or a whole directive. */
    method Step() returns (done: bool, outcome: Outcome, ghost piece: string)
      requires Valid() && index < |format|
      modifies this
      ensures Valid() && format == old(format)
      ensures buffer == old(buffer) + piece
      ensures done ==> piece == [] && Scan(format, old(index)) == Scanned([], index, outcome)
      ensures !done ==> old(index) < index && Scan(format, old(index)) == Prepend(piece, Scan(format, index))
    {
      ScanAt(format, index);
      var ch := format[index];
      if ch != '%' {
        buffer := buffer + [ch];
        index := index + 1;
        return false, End, [ch];
      }
      var d := NextDirective();
      if d.Conversion? {
        return true, Found(d.fmt), [];
      } else if d.Bad? {
        return true, Malformed, [];
      }
      return false, End, d.text;
    }

    /** `while (len < fieldWidth--) append(pad)`: returns the decremented width. */
    method PadWhileShorter(pad: char, len: int, width: int) returns (rest: int)
      modifies this
      ensures format == old(format) && index == old(index)
      ensures buffer == old(buffer) + Repeat(pad, width - len)
      ensures rest == Min(width, len) - 1
    {
      rest := width;
      var more := len < rest;
      rest := rest - 1;
      while more
        invariant format == old(format) && index == old(index)
        invariant more <==> len <= rest
        invariant more ==> buffer == old(buffer) + Repeat(pad, width - rest - 1)
        invariant !more ==> buffer == old(buffer) + Repeat(pad, width - len) && rest == Min(width, len) - 1
        decreases rest - len
      {
        buffer := buffer + [pad];
        more := len < rest;
        rest := rest - 1;
      }
    }

    /** `while (--fieldWidth > 0) append(' ')`: returns the decremented width. */
    method PadWhilePositive(width: int) returns (rest: int)
      modifies this
      ensures format == old(format) && index == old(index)
      ensures buffer == old(buffer) + Repeat(' ', width - 1)
      ensures rest == Min(width - 1, 0)
    {
      rest := width - 1;
      while rest > 0
        invariant format == old(format) && index == old(index)
        invariant rest > 0 ==> buffer == old(buffer) + Repeat(' ', width - 1 - rest)
        invariant rest <= 0 ==> buffer == old(buffer) + Repeat(' ', width - 1) && rest == Min(width - 1, 0)
        decreases rest
      {
        buffer := buffer + [' '];
        rest := rest - 1;
      }
    }

    /** `for (i = 0; i < len; ++i) append(str.charAt(i))`. */
    method AppendChars(str: string, len: int)
      requires 0 <= len <= |str|
      modifies this
      ensures format == old(format) && index == old(index)
      ensures buffer == old(buffer) + str[..len]
    {
      for i := 0 to len
        invariant format == old(format) && index == old(index)
        invariant buffer == old(buffer) + str[..i]
      {
        assert str[..i + 1] == str[..i] + [str[i]];
        buffer := buffer + [str[i]];
      }
    }

    /** `format(char)`. */
    method FormatChar(ch: char) returns (r: Result<(), FormatError>)
      requires Valid()
      modifies this
      ensures Valid() && format == old(format)
      ensures index == Scan(format, old(index)).next
      ensures Emits(old(buffer), Scan(format, old(index)), CharType, ExpectedChar, f => CharText(f, ch), buffer, r)
    {
      var outcome := GetFormat();
      if outcome.End? {
        return Err(NullPointer);
      } else if outcome.Malformed? {
        return Err(IllegalArgument(MalformedFormat));
      }
      var fmt := outcome.fmt;
      if fmt.kind != CharType {
        return Err(IllegalArgument(ExpectedChar));
      }
      RenderChar(fmt, ch);
      r := Ok(());
    }

    /** The padding and character `format(char)` appends once its directive is known. */
    method RenderChar(fmt: Format, ch: char)
      modifies this
      ensures format == old(format) && index == old(index)
      ensures buffer == old(buffer) + CharText(fmt, ch)
    {
      var width := fmt.fieldWidth;
      if Left !in fmt.flags {
        width := PadWhilePositive(width);
      }
      buffer := buffer + [ch];
      width := PadWhilePositive(width);
    }

    /** `format(String)`; `None` is a null argument. */
    method FormatString(str: Option<string>) returns (r: Result<(), FormatError>)
      requires Valid()
      modifies this
      ensures Valid() && format == old(format)
      ensures index == Scan(format, old(index)).next
      ensures Emits(old(buffer), Scan(format, old(index)), StringType, ExpectedString, f => StringText(f, Shown(str)), buffer, r)
    {
      var s := if str.None? then "<NULL>" else str.value;
      var outcome := GetFormat();
      if outcome.End? {
        return Err(NullPointer);
      } else if outcome.Malformed? {
        return Err(IllegalArgument(MalformedFormat));
      }
      var fmt := outcome.fmt;
      if fmt.kind != StringType {
        return Err(IllegalArgument(ExpectedString));
      }
      RenderString(fmt, s);
      r := Ok(());
    }

    /** The padding and characters `format(String)` appends once its directive is known. */
    method RenderString(fmt: Format, s: string)
      modifies this
      ensures format == old(format) && index == old(index)
      ensures buffer == old(buffer) + StringText(fmt, s)
    {
      ghost var b0 := buffer;
      var len := |s|;
      if fmt.precision != -1 && len > fmt.precision {
        len := fmt.precision;
      }
      var width := fmt.fieldWidth;
      ghost var fill := Repeat(' ', width - len);
      if Left !in fmt.flags {
        width := PadWhileShorter(' ', len, width);
      }
      ghost var b1 := buffer;
      AppendChars(s, len);
      ghost var b2 := buffer;
      width := PadWhileShorter(' ', len, width);
      if Left in fmt.flags {
        Concat(b0, s[..len], fill);
      } else {
        assert buffer == b2;
        Concat(b0, fill, s[..len]);
      }
    }

    /** The sign `format(long)` writes: only in base 10. */
    method AppendSign(fmt: Format, l: Long)
      modifies this
      ensures format == old(format) && index == old(index)
      ensures buffer == old(buffer) + Sign(fmt, l)
    {
      if l < 0 && fmt.base == 10 {
        buffer := buffer + ['-'];
      } else if Plus in fmt.flags && fmt.base == 10 {
        buffer := buffer + ['+'];
      }
    }

    /** `format(long)`, with the digits of |l| in base 10 (see `AbsTextAsWritten` for Long.MIN_VALUE). */
    method FormatLong(l: Long) returns (r: Result<(), FormatError>)
      requires Valid()
      modifies this
      ensures Valid() && format == old(format)
      ensures index == Scan(format, old(index)).next
      ensures Emits(old(buffer), Scan(format, old(index)), DecimalType, ExpectedNumber, f => LongText(f, l), buffer, r)
    {
      var outcome := GetFormat();
      if outcome.End? {
        return Err(NullPointer);
      } else if outcome.Malformed? {
        return Err(IllegalArgument(MalformedFormat));
      }
      var fmt := outcome.fmt;
      if fmt.kind != DecimalType {
        return Err(IllegalArgument(ExpectedNumber));
      }
      RenderLong(fmt, l);
      r := Ok(());
    }

    /** The text `format(long)` appends once its directive is known. */
    method RenderLong(fmt: Format, l: Long)
      modifies this
      ensures format == old(format) && index == old(index)
      ensures buffer == old(buffer) + LongText(fmt, l)
    {
      ghost var b1 := buffer;
      var pad := ' ';
      if ZeroPad in fmt.flags {
        pad := '0';
      }
      var str, prefix, width := NumberText(fmt, l);
      var len := |str|;
      if l < 0 || Plus in fmt.flags {
        width := width - 1;
      }
      assert Max(0, width - len) == LongPadding(fmt, l, len);
      width := AppendSignedPrefix(fmt, l, pad, prefix, len, width);
      assert str[..len] == str;
      AppendChars(str, len);
      width := PadWhileShorter(' ', len, width);
      var fill := Repeat(pad, LongPadding(fmt, l, len));
      var trail := Repeat(' ', LongPadding(fmt, l, len));
      if Left in fmt.flags {
        assert LongText(fmt, l) == Sign(fmt, l) + prefix + str + trail;
        Associate(b1, Sign(fmt, l) + prefix, str, trail);
      } else if ZeroPad in fmt.flags {
        assert LongText(fmt, l) == Sign(fmt, l) + prefix + fill + str;
        Associate(b1, Sign(fmt, l) + prefix + fill, str, []);
      } else {
        assert LongText(fmt, l) == fill + Sign(fmt, l) + prefix + str;
        Associate(b1, fill + Sign(fmt, l) + prefix, str, []);
      }
    }

    /** The digits, the '#' prefix (both upper-cased with 'X') and the width left for them, as `format(long)` computes them. */
    method NumberText(fmt: Format, l: Long) returns (str: string, prefix: string, width: int)
      ensures str == Cased(fmt, Body(fmt, l, AbsText(l)))
      ensures prefix == Cased(fmt, Prefix(fmt))
      ensures width == fmt.fieldWidth - |Prefix(fmt)|
    {
      prefix := "";
      width := fmt.fieldWidth;
      if fmt.base == 8 {
        str := Digits(Unsigned64(l), 8);
        if Special in fmt.flags {
          width := width - 1;
          prefix := "0";
        }
      } else if fmt.base == 16 {
        str := Digits(Unsigned64(l), 16);
        if Special in fmt.flags {
          width := width - 2;
          prefix := "0x";
        }
      } else {
        str := AbsText(l);
      }
      if Large in fmt.flags {
        str := ToUpper(str);
        prefix := ToUpper(prefix);
      }
    }

    /** The part of `format(long)` before the digits: the sign and prefix, with the padding before them, or after them with '0' padding, or none with '-'; returns the width left for trailing padding. */
    method AppendSignedPrefix(fmt: Format, l: Long, pad: char, prefix: string, len: int, width: int) returns (rest: int)
      requires pad == if ZeroPad in fmt.flags then '0' else ' '
      modifies this
      ensures format == old(format) && index == old(index)
      ensures Left in fmt.flags ==> buffer == old(buffer) + (Sign(fmt, l) + prefix) && rest == width
      ensures Left !in fmt.flags && ZeroPad in fmt.flags ==>
        buffer == old(buffer) + (Sign(fmt, l) + prefix + Repeat(pad, width - len)) && rest < len
      ensures Left !in fmt.flags && ZeroPad !in fmt.flags ==>
        buffer == old(buffer) + (Repeat(pad, width - len) + Sign(fmt, l) + prefix) && rest < len
    {
      rest := width;
      if ZeroPad in fmt.flags {
        AppendSign(fmt, l);
        buffer := buffer + prefix;
      }
      if Left !in fmt.flags {
        rest := PadWhileShorter(pad, len, rest);
      }
      if ZeroPad !in fmt.flags {
        AppendSign(fmt, l);
        buffer := buffer + prefix;
      }
    }

    /** `format(int)`: the same as for the long of equal value. */
    method FormatInt(i: Int32) returns (r: Result<(), FormatError>)
      requires Valid()
      modifies this
      ensures Valid() && format == old(format)
      ensures index == Scan(format, old(index)).next
      ensures Emits(old(buffer), Scan(format, old(index)), DecimalType, ExpectedNumber, f => LongText(f, i), buffer, r)
    {
      r := FormatLong(i);
    }

    /** `toString`: the buffer followed by the unread rest of the format; the builder is reset afterwards. */
    method ToString() returns (s: string)
      requires Valid()
      modifies this
      ensures s == old(buffer) + old(format)[old(index)..]
      ensures Valid() && format == old(format) && buffer == [] && index == 0
    {
      if index < |format| {
        buffer := buffer + format[index..];
      }
      s := buffer;
      Reset();
    }
  }
}
