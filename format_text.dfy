/**
 * The text that org.openscience.cdk.io.FormatStringBuilder produces, as
 * functions of the format string and the argument: how a directive
 * ("%-08.3x" and the like) is read, what a directive turns into, and the
 * number-to-text conversions of java.lang.Long it relies on. The class that
 * produces this text step by step is in module FormatStringBuilders.
 */
module FormatText {
  import opened Wrappers

  // ---------------------------------------------------------------------
  // Java integers

  const INT_MIN := -0x8000_0000
  const INT_MAX := 0x7fff_ffff
  const LONG_MIN := -0x8000_0000_0000_0000
  const LONG_MAX := 0x7fff_ffff_ffff_ffff

  type Int32 = i: int | INT_MIN <= i <= INT_MAX
  type Long = l: int | LONG_MIN <= l <= LONG_MAX

  /** Reduction of a mathematical integer to Java `int` (two's complement wrap-around). */
  function Wrap32(x: int): (r: Int32)
    ensures INT_MIN <= x <= INT_MAX ==> r == x
  {
    (x + 0x8000_0000) % 0x1_0000_0000 - 0x8000_0000
  }

  function Max(a: int, b: int): int { if a < b then b else a }
  function Min(a: int, b: int): int { if a < b then a else b }

  /** `n` copies of `c`. */
  function Repeat(c: char, n: int): (r: string)
    ensures |r| == Max(0, n)
    ensures forall k :: 0 <= k < |r| ==> r[k] == c
  {
    seq(Max(0, n), _ => c)
  }

  // ---------------------------------------------------------------------
  // Directives

  /** The flag bits of a directive; each Java flag constant is a single bit, so `flags |= F` adds F and `(flags & F) == F` tests for it. */
  datatype Flag = ZeroPad | Plus | Space | Left | Special | Large | Sci | Upper | Grouping

  /** The conversion types CHAR, STRING, DECIMAL and FLOAT. */
  datatype ConversionType = CharType | StringType | DecimalType | FloatType

  /** A precision is -1 (none given) or a count of characters. */
  type Precision = p: int | p >= -1

  /** A parsed directive, the fields of the `Format` record. */
  datatype Format = Format(flags: set<Flag>, fieldWidth: int, precision: Precision, kind: ConversionType, base: int)

  /** The flag a character stands for in the flags part of a directive. */
  function FlagOf(c: char): (r: Option<Flag>)
    ensures r.Some? <==> c in "-+ #0'"
  {
    match c
    case '-' => Some(Left)
    case '+' => Some(Plus)
    case ' ' => Some(Space)
    case '#' => Some(Special)
    case '0' => Some(ZeroPad)
    case '\'' => Some(Grouping)
    case _ => None
  }

  /** ASCII digits only (`isDigit`), not the Unicode digits of Character.isDigit. */
  predicate IsDigit(c: char)
  {
    '0' <= c <= '9'
  }

  /** End of the maximal run of digits starting at `i`: where `skipDigits` leaves the index. */
  function SkipEnd(s: string, i: nat): (j: nat)
    requires i <= |s|
    ensures i <= j <= |s|
    ensures forall k :: i <= k < j ==> IsDigit(s[k])
    ensures j == |s| || !IsDigit(s[j])
    decreases |s| - i
  {
    if i < |s| && IsDigit(s[i]) then SkipEnd(s, i + 1) else i
  }

  /** The Java `int` that `skipDigits` accumulates from `digits`, wrapping on overflow. */
  function IntValue(digits: string): int
  {
    if digits == [] then 0
    else Wrap32(IntValue(digits[..|digits| - 1]) * 10 + (digits[|digits| - 1] as int - '0' as int))
  }

  /** Outcome of reading the flags after a '%'. */
  datatype FlagRun = Flags(flags: set<Flag>, at: nat) | FlagsCutOff(at: nat)

  /** The flags loop: read characters after position `j` while they are flags. */
  function ScanFlags(s: string, j: nat, flags: set<Flag>): (r: FlagRun)
    requires j < |s|
    ensures r.Flags? ==> j < r.at < |s| && FlagOf(s[r.at]).None?
    ensures r.Flags? ==> forall k :: j < k < r.at ==> FlagOf(s[k]).Some?
    ensures r.FlagsCutOff? ==> r.at == |s| - 1
    decreases |s| - j
  {
    if j + 1 >= |s| then FlagsCutOff(j)
    else match FlagOf(s[j + 1])
      case Some(f) => ScanFlags(s, j + 1, flags + {f})
      case None => Flags(flags, j + 1)
  }

  /** What one directive turns into: a conversion for the next argument, literal text, or a malformed-format failure at an index. */
  datatype Directive = Conversion(fmt: Format, next: nat) | Literal(text: string, next: nat) | Bad(at: nat)

  /** The directive whose '%' is at `i`. */
  function DirectiveAt(s: string, i: nat): (d: Directive)
    requires i < |s| && s[i] == '%'
    ensures d.Conversion? || d.Literal? ==> i < d.next <= |s|
    ensures d.Bad? ==> i <= d.at <= |s|
  {
    match ScanFlags(s, i, {})
    case FlagsCutOff(at) => Bad(at)
    case Flags(flags, k) =>
      var k1 := SkipEnd(s, k);
      AfterWidth(s, flags, if IsDigit(s[k]) then IntValue(s[k..k1]) else -1, k1)
  }

  /** The rest of a directive once flags and width are read and the index is at `k`: the optional precision, then the conversion character. */
  function AfterWidth(s: string, flags: set<Flag>, width: int, k: nat): (d: Directive)
    requires k <= |s|
    ensures d.Conversion? || d.Literal? ==> k < d.next <= |s|
    ensures d.Bad? ==> k <= d.at <= |s|
  {
    if k >= |s| then Bad(k)
    else if s[k] == '.' then
      if k + 1 >= |s| then Bad(k + 1)
      else
        var k2 := SkipEnd(s, k + 1);
        var p := IntValue(s[k + 1..k2]);
        Convert(s, k2, flags, width, if p < 0 then 0 else p)
    else Convert(s, k, flags, width, -1)
  }

  /** The conversion character at `k`, with the flags, width and precision already read. */
  function Convert(s: string, k: nat, flags: set<Flag>, width: int, precision: Precision): (d: Directive)
    requires k <= |s|
    ensures d.Bad? <==> k == |s|
    ensures d.Bad? ==> d.at == k
    ensures d.Conversion? || d.Literal? ==> d.next == k + 1
    ensures d.Conversion? ==> d.fmt.fieldWidth == width && d.fmt.precision == precision && d.fmt.base in {8, 10, 16}
    ensures d.Literal? ==> d.text == if s[k] == '%' then "%" else ['%', s[k]]
  {
    if k >= |s| then Bad(k)
    else
      var next := k + 1;
      match s[k]
      case 'c' => Conversion(Format(flags, width, precision, CharType, 10), next)
      case 's' => Conversion(Format(flags, width, precision, StringType, 10), next)
      case '%' => Literal("%", next)
      case 'o' => Conversion(Format(flags, width, precision, DecimalType, 8), next)
      case 'X' => Conversion(Format(flags + {Large}, width, precision, DecimalType, 16), next)
      case 'x' => Conversion(Format(flags, width, precision, DecimalType, 16), next)
      case 'd' => Conversion(Format(flags, width, precision, DecimalType, 10), next)
      case 'i' => Conversion(Format(flags, width, precision, DecimalType, 10), next)
      case 'f' => Conversion(Format(flags, width, precision, FloatType, 10), next)
      case 'g' => Conversion(Format(flags, width, precision, FloatType, 10), next)
      case 'e' => Conversion(Format(flags + {Sci}, width, precision, FloatType, 10), next)
      case 'E' => Conversion(Format(flags + {Sci, Upper}, width, precision, FloatType, 10), next)
      case _ => Literal(['%', s[k]], next)
  }

  /** The result of looking for the next conversion: no more directives, a conversion, or a malformed format. */
  datatype Outcome = Found(fmt: Format) | End | Malformed

  /** Text copied to the output on the way, the index reached, and the outcome. */
  datatype Scanned = Scanned(text: string, next: nat, outcome: Outcome)

  function Prepend(t: string, r: Scanned): Scanned
  {
    r.(text := t + r.text)
  }

  /** `getFormat` from index `i`: literal characters are copied, "%%" and unknown directives become text, and the first conversion or malformed directive stops the scan. */
  function Scan(s: string, i: nat): (r: Scanned)
    requires i <= |s|
    ensures i <= r.next <= |s|
    ensures r.outcome.End? ==> r.next == |s|
    decreases |s| - i
  {
    if i == |s| then Scanned([], i, End)
    else if s[i] != '%' then Prepend([s[i]], Scan(s, i + 1))
    else match DirectiveAt(s, i)
      case Conversion(f, next) => Scanned([], next, Found(f))
      case Literal(t, next) => Prepend(t, Scan(s, next))
      case Bad(at) => Scanned([], at, Malformed)
  }

  // ---------------------------------------------------------------------
  // Properties of the scan

  /** Every character that is not part of a directive is copied verbatim, and the scan runs to the end. */
  lemma {:induction false} PlainTextCopied(s: string, i: nat)
    requires i <= |s|
    requires forall k :: i <= k < |s| ==> s[k] != '%'
    ensures Scan(s, i) == Scanned(s[i..], |s|, End)
    decreases |s| - i
  {
    if i < |s| {
      PlainTextCopied(s, i + 1);
      assert [s[i]] + s[i + 1..] == s[i..];
    }
  }

  /** "%%" copies a single '%' and scanning goes on after it. */
  lemma DoublePercent(s: string, i: nat)
    requires i + 1 < |s| && s[i] == '%' && s[i + 1] == '%'
    ensures Scan(s, i) == Prepend("%", Scan(s, i + 2))
  {
    assert ScanFlags(s, i, {}) == Flags({}, i + 1);
    assert SkipEnd(s, i + 1) == i + 1;
    assert DirectiveAt(s, i) == Literal("%", i + 2);
  }

  /** A conversion character the builder does not know is copied with its '%', and scanning goes on. */
  lemma UnknownConversion(s: string, i: nat)
    requires i + 1 < |s| && s[i] == '%'
    requires s[i + 1] !in "-+ #0'.%csoXxdifgeE" && !IsDigit(s[i + 1])
    ensures Scan(s, i) == Prepend(['%', s[i + 1]], Scan(s, i + 2))
  {
    assert ScanFlags(s, i, {}) == Flags({}, i + 1);
    assert SkipEnd(s, i + 1) == i + 1;
    assert DirectiveAt(s, i) == Literal(['%', s[i + 1]], i + 2);
  }

  /** Reading flags that run up to a non-flag at `m` stops there. */
  lemma {:induction false} FlagsUpTo(s: string, j: nat, flags: set<Flag>, m: nat)
    requires j < m <= |s|
    requires forall k :: j < k < m ==> FlagOf(s[k]).Some?
    ensures m < |s| && FlagOf(s[m]).None? ==> ScanFlags(s, j, flags).Flags? && ScanFlags(s, j, flags).at == m
    ensures m == |s| ==> ScanFlags(s, j, flags) == FlagsCutOff(|s| - 1)
    decreases m - j
  {
    if j + 1 < m {
      FlagsUpTo(s, j + 1, flags + {FlagOf(s[j + 1]).value}, m);
    }
  }

  /** A directive that ends before its conversion character (after the '%', the flags, the width, the '.' or the precision) is malformed. */
  lemma Unterminated(s: string, i: nat, m: nat, k: nat)
    requires i < m <= k <= |s| && s[i] == '%'
    requires forall j :: i < j < m ==> FlagOf(s[j]).Some?
    requires m == |s| || FlagOf(s[m]).None?
    requires forall j :: m <= j < k ==> IsDigit(s[j])
    requires k == |s| || (s[k] == '.' && forall j :: k < j < |s| ==> IsDigit(s[j]))
    ensures Scan(s, i).outcome == Malformed && Scan(s, i).text == []
  {
    FlagsUpTo(s, i, {}, m);
    if m < |s| {
      SkipPast(s, m, k);
      if k < |s| && k + 1 < |s| {
        SkipPast(s, k + 1, |s|);
      }
    }
  }

  /** `SkipEnd` from the start of a maximal digit run finds its end. */
  lemma {:induction false} SkipPast(s: string, i: nat, k: nat)
    requires i <= k <= |s|
    requires forall j :: i <= j < k ==> IsDigit(s[j])
    requires k == |s| || !IsDigit(s[k])
    ensures SkipEnd(s, i) == k
    decreases k - i
  {
    if i < k {
      SkipPast(s, i + 1, k);
    }
  }

  // ---------------------------------------------------------------------
  // Digits and their values

  /** The value of a digit character in bases up to 36, either case. */
  function DigitValue(c: char): (v: int)
    ensures 0 <= v < 36
  {
    if '0' <= c <= '9' then c as int - '0' as int
    else if 'a' <= c <= 'z' then c as int - 'a' as int + 10
    else if 'A' <= c <= 'Z' then c as int - 'A' as int + 10
    else 0
  }

  /** The value of a digit string in base `b`, most significant digit first. */
  function ValueIn(digits: string, b: int): int
  {
    if digits == [] then 0
    else ValueIn(digits[..|digits| - 1], b) * b + DigitValue(digits[|digits| - 1])
  }

  /** The lower-case digit for `d` (Long.toString / toOctalString / toHexString). */
  function DigitChar(d: nat): (c: char)
    requires d < 16
    ensures DigitValue(c) == d
    ensures d < 10 <==> IsDigit(c)
  {
    if d < 10 then (d + '0' as int) as char else (d - 10 + 'a' as int) as char
  }

  /** The base-`b` digits of `n`, with no leading zeros ("0" for zero). */
  function Digits(n: nat, b: nat): (r: string)
    requires b in {8, 10, 16}
    ensures |r| >= 1
    decreases n
  {
    (if n < b then [] else Digits(n / b, b)) + [DigitChar(n % b)]
  }

  /** Digits read back give the number: `Digits` and `ValueIn` are inverse. */
  lemma {:induction false} DigitsRoundTrip(n: nat, b: nat)
    requires b in {8, 10, 16}
    ensures ValueIn(Digits(n, b), b) == n
    decreases n
  {
    var init := if n < b then [] else Digits(n / b, b);
    var last := DigitChar(n % b);
    assert Digits(n, b) == init + [last];
    ValueSnoc(init, last, b);
    DivMod(n, b);
    if n >= b {
      DigitsRoundTrip(n / b, b);
    }
  }

  lemma ValueSnoc(init: string, c: char, b: int)
    ensures ValueIn(init + [c], b) == ValueIn(init, b) * b + DigitValue(c)
  {
    assert (init + [c])[..|init|] == init;
  }

  lemma DivMod(n: nat, b: nat)
    requires b in {8, 10, 16}
    ensures (n / b) * b + n % b == n
    ensures n < b ==> n / b == 0
  {
  }

  /** Decimal digits are ASCII digits and nothing else. */
  lemma {:induction false} DecimalDigitsAreDigits(n: nat)
    ensures forall k :: 0 <= k < |Digits(n, 10)| ==> IsDigit(Digits(n, 10)[k])
    decreases n
  {
    if n >= 10 {
      DecimalDigitsAreDigits(n / 10);
    }
  }

  /** Java's toUpperCase on the ASCII letters these conversions produce. */
  function UpperChar(c: char): char
  {
    if 'a' <= c <= 'z' then (c as int - 32) as char else c
  }

  function ToUpper(s: string): (r: string)
    ensures |r| == |s|
  {
    seq(|s|, k requires 0 <= k < |s| => UpperChar(s[k]))
  }

  /** Upper-casing hexadecimal digits does not change the number they denote. */
  lemma {:induction false} UpperKeepsValue(d: string, b: int)
    ensures ValueIn(ToUpper(d), b) == ValueIn(d, b)
    decreases |d|
  {
    if d != [] {
      var u := ToUpper(d);
      assert u[..|u| - 1] == ToUpper(d[..|d| - 1]);
      UpperKeepsValue(d[..|d| - 1], b);
    }
  }

  /** Shifting by a multiple of 2^32 does not change the wrapped value. */
  lemma {:induction false} WrapShift(y: int, q: int)
    ensures Wrap32(y + 0x1_0000_0000 * q) == Wrap32(y)
    decreases if q < 0 then -q else q
  {
    if q > 0 {
      WrapShift(y, q - 1);
      assert y + 0x1_0000_0000 * q == (y + 0x1_0000_0000 * (q - 1)) + 0x1_0000_0000;
    } else if q < 0 {
      WrapShift(y, q + 1);
      assert y + 0x1_0000_0000 * q == (y + 0x1_0000_0000 * (q + 1)) - 0x1_0000_0000;
    }
  }

  /** `skipDigits` yields the decimal value of the digits reduced to a Java `int`. */
  lemma {:induction false} IntValueWraps(digits: string)
    requires forall k :: 0 <= k < |digits| ==> IsDigit(digits[k])
    ensures IntValue(digits) == Wrap32(ValueIn(digits, 10))
    decreases |digits|
  {
    if digits != [] {
      var init := digits[..|digits| - 1];
      var c := digits[|digits| - 1] as int - '0' as int;
      IntValueWraps(init);
      var x := ValueIn(init, 10);
      var q := (x + 0x8000_0000) / 0x1_0000_0000;
      assert Wrap32(x) == x - 0x1_0000_0000 * q;
      assert Wrap32(x) * 10 + c == x * 10 + c + 0x1_0000_0000 * (-10 * q);
      WrapShift(x * 10 + c, -10 * q);
    }
  }

  /** A number of at most `k` decimal digits is below 10^k. */
  lemma {:induction false} DecimalBound(digits: string)
    requires |digits| <= 9
    requires forall k :: 0 <= k < |digits| ==> IsDigit(digits[k])
    ensures 0 <= ValueIn(digits, 10) < Pow10(|digits|)
    decreases |digits|
  {
    if digits != [] {
      DecimalBound(digits[..|digits| - 1]);
    }
  }

  function Pow10(k: nat): (r: nat)
    ensures r >= 1
  {
    if k == 0 then 1 else 10 * Pow10(k - 1)
  }

  /** Widths and precisions of up to nine digits are read exactly; longer ones wrap as Java `int` arithmetic does. */
  lemma SkipDigitsExact(s: string, i: nat)
    requires i <= |s| && SkipEnd(s, i) - i <= 9
    ensures IntValue(s[i..SkipEnd(s, i)]) == ValueIn(s[i..SkipEnd(s, i)], 10)
  {
    var digits := s[i..SkipEnd(s, i)];
    IntValueWraps(digits);
    DecimalBound(digits);
    assert Pow10(|digits|) <= Pow10(9) by {
      Pow10Monotone(|digits|, 9);
    }
  }

  lemma {:induction false} Pow10Monotone(a: nat, b: nat)
    requires a <= b
    ensures Pow10(a) <= Pow10(b)
    decreases b
  {
    if a < b {
      Pow10Monotone(a, b - 1);
    }
  }

  // ---------------------------------------------------------------------
  // What each conversion writes

  /** `format(char)`: the character padded with spaces to the field width, on the left unless '-' is set. */
  function CharText(f: Format, ch: char): string
  {
    var pad := Repeat(' ', f.fieldWidth - 1);
    if Left in f.flags then [ch] + pad else pad + [ch]
  }

  /** `format(char)` writes max(1, fieldWidth) characters, the character itself at the edge the '-' flag selects and spaces elsewhere. */
  lemma CharTextShape(f: Format, ch: char)
    ensures var t := CharText(f, ch);
      |t| == Max(1, f.fieldWidth) &&
      (if Left in f.flags then t[0] == ch && forall k :: 0 < k < |t| ==> t[k] == ' '
       else t[|t| - 1] == ch && forall k :: 0 <= k < |t| - 1 ==> t[k] == ' ')
  {
  }

  /** How many characters of `str` a directive keeps: all, or at most the precision. */
  function Kept(f: Format, str: string): (len: nat)
    ensures len <= |str|
    ensures f.precision == -1 ==> len == |str|
    ensures f.precision != -1 ==> len == Min(|str|, f.precision)
  {
    if f.precision != -1 && |str| > f.precision then f.precision else |str|
  }

  /** The string `format(String)` prints: null becomes "<NULL>". */
  function Shown(str: Option<string>): string
  {
    match str
    case None => "<NULL>"
    case Some(s) => s
  }

  /** `format(String)`: the kept prefix padded with spaces to the field width. */
  function StringText(f: Format, str: string): string
  {
    var kept := str[..Kept(f, str)];
    var pad := Repeat(' ', f.fieldWidth - |kept|);
    if Left in f.flags then kept + pad else pad + kept
  }

  /** `format(String)` writes max(len, fieldWidth) characters: the first `len` characters of the string, spaces on the left, or on the right with '-'. */
  lemma StringTextShape(f: Format, str: string)
    ensures var t := StringText(f, str); var len := Kept(f, str);
      |t| == Max(len, f.fieldWidth) &&
      (if Left in f.flags then t[..len] == str[..len] && forall k :: len <= k < |t| ==> t[k] == ' '
       else t[|t| - len..] == str[..len] && forall k :: 0 <= k < |t| - len ==> t[k] == ' ')
  {
  }

  // ---------------------------------------------------------------------
  // format(long)

  /** The two's-complement reading of a long as an unsigned 64-bit number, as Long.toOctalString and toHexString print it. */
  function Unsigned64(l: Long): (n: nat)
    ensures n < 0x1_0000_0000_0000_0000
    ensures l >= 0 ==> n == l
  {
    if l < 0 then l + 0x1_0000_0000_0000_0000 else l
  }

  /** |l| as a mathematical integer. */
  function Magnitude(l: int): nat
  {
    if l < 0 then -l else l
  }

  /** The digits of |l| exactly as `String.valueOf(Math.abs(l))` prints them: Math.abs(Long.MIN_VALUE) is Long.MIN_VALUE itself, which prints with a '-'. */
  function AbsTextAsWritten(l: Long): string
  {
    if l == LONG_MIN then "-" + Digits(Magnitude(l), 10) else Digits(Magnitude(l), 10)
  }

  /** The digits of |l| without a sign, for every long. */
  function AbsText(l: Long): (r: string)
    ensures forall k :: 0 <= k < |r| ==> IsDigit(r[k])
    ensures ValueIn(r, 10) == Magnitude(l)
  {
    DecimalDigitsAreDigits(Magnitude(l));
    DigitsRoundTrip(Magnitude(l), 10);
    Digits(Magnitude(l), 10)
  }

  /** The number's digits before case is applied: octal or hexadecimal of the unsigned reading, otherwise the given decimal text. */
  function Body(f: Format, l: Long, decimal: string): string
  {
    if f.base == 8 then Digits(Unsigned64(l), 8)
    else if f.base == 16 then Digits(Unsigned64(l), 16)
    else decimal
  }

  /** The '#' prefix: "0" for octal, "0x" for hexadecimal. */
  function Prefix(f: Format): string
  {
    if Special !in f.flags then ""
    else if f.base == 8 then "0"
    else if f.base == 16 then "0x"
    else ""
  }

  /** The sign character: only base 10 prints one. */
  function Sign(f: Format, l: Long): string
  {
    if f.base != 10 then ""
    else if l < 0 then "-"
    else if Plus in f.flags then "+"
    else ""
  }

  function Cased(f: Format, s: string): string
  {
    if Large in f.flags then ToUpper(s) else s
  }

  /** Room left for padding: the width less the prefix, less one when the number is negative or '+' is set (in every base). */
  function LongPadding(f: Format, l: Long, len: int): int
  {
    Max(0, f.fieldWidth - |Prefix(f)| - (if l < 0 || Plus in f.flags then 1 else 0) - len)
  }

  /** What `format(long)` writes when `decimal` is its base-10 digit text. */
  function LongTextWith(f: Format, l: Long, decimal: string): string
  {
    var str := Cased(f, Body(f, l, decimal));
    var prefix := Cased(f, Prefix(f));
    var pad := LongPadding(f, l, |str|);
    if Left in f.flags then Sign(f, l) + prefix + str + Repeat(' ', pad)
    else if ZeroPad in f.flags then Sign(f, l) + prefix + Repeat('0', pad) + str
    else Repeat(' ', pad) + Sign(f, l) + prefix + str
  }

  /** `format(long)` with the digits of Math.abs as the code has them. */
  function LongTextAsWritten(f: Format, l: Long): string
  {
    LongTextWith(f, l, AbsTextAsWritten(l))
  }

  /** `format(long)` with the digits of |l|, a single sign for every long. */
  function LongText(f: Format, l: Long): string
  {
    LongTextWith(f, l, AbsText(l))
  }

  /** Long.MIN_VALUE in base 10 is written with two minus signs: "--9223372036854775808", padded as usual. */
  lemma MinValueTwoSigns(f: Format, l: Long)
    requires f.base == 10 && ZeroPad !in f.flags && l == LONG_MIN
    ensures var t := LongTextAsWritten(f, l); var body := "--" + Digits(Magnitude(l), 10);
      |body| <= |t| &&
      (Left in f.flags ==> t[..|body|] == body) &&
      (Left !in f.flags ==> t[|t| - |body|..] == body)
  {
    var digits := Digits(Magnitude(l), 10);
    DecimalDigitsAreDigits(Magnitude(l));
    assert AbsTextAsWritten(l) == "-" + digits;
    SignedDigitsTwice(f, l, digits);
  }

  /** A negative number whose decimal text already carries a '-' gets a second one. */
  lemma SignedDigitsTwice(f: Format, l: Long, digits: string)
    requires f.base == 10 && ZeroPad !in f.flags && l < 0
    requires forall k :: 0 <= k < |digits| ==> IsDigit(digits[k])
    ensures var t := LongTextWith(f, l, "-" + digits); var body := "--" + digits;
      |body| <= |t| &&
      (Left in f.flags ==> t[..|body|] == body) &&
      (Left !in f.flags ==> t[|t| - |body|..] == body)
  {
    UpperDigits("-" + digits);
    assert Cased(f, Body(f, l, "-" + digits)) == "-" + digits;
    assert Prefix(f) == "" && Sign(f, l) == "-";
    assert "-" + ("-" + digits) == "--" + digits;
  }

  /** Upper-casing leaves decimal digits and signs alone. */
  lemma UpperDigits(s: string)
    requires forall k :: 0 <= k < |s| ==> IsDigit(s[k]) || s[k] == '-'
    ensures ToUpper(s) == s
  {
  }

  /** Base-10 `format(long)` writes one sign: '-' for negatives, '+' for non-negatives with the '+' flag, nothing otherwise. */
  lemma DecimalSign(f: Format, l: Long)
    requires f.base == 10
    ensures var sign := Sign(f, l);
      (sign == "-" <==> l < 0) && (sign == "+" <==> l >= 0 && Plus in f.flags) && (sign == [] <==> l >= 0 && Plus !in f.flags)
  {
  }

  /** Base-10 `format(long)`: the sign, then the digits of |l| (`AbsText`); space padding goes before the sign, '0' padding between sign and digits, and with '-' spaces go after the digits; the width is max(fieldWidth, sign and digits). */
  lemma DecimalLayout(f: Format, l: Long)
    requires f.base == 10
    ensures var t := LongText(f, l); var sign := Sign(f, l); var digits := AbsText(l);
      var pad := |t| - |sign| - |digits|;
      |t| == Max(f.fieldWidth, |sign| + |digits|) &&
      (Left in f.flags ==> t == sign + digits + Repeat(' ', pad)) &&
      (Left !in f.flags && ZeroPad in f.flags ==> t == sign + Repeat('0', pad) + digits) &&
      (Left !in f.flags && ZeroPad !in f.flags ==> t == Repeat(' ', pad) + sign + digits)
  {
    var digits := AbsText(l);
    var sign := Sign(f, l);
    UpperDigits(digits);
    assert Cased(f, Body(f, l, digits)) == digits;
    assert Cased(f, Prefix(f)) == [];
    assert sign + [] == sign;
    var pad := LongPadding(f, l, |digits|);
    if Left in f.flags {
      assert LongText(f, l) == sign + digits + Repeat(' ', pad);
    } else if ZeroPad in f.flags {
      assert LongText(f, l) == sign + Repeat('0', pad) + digits;
    } else {
      assert LongText(f, l) == Repeat(' ', pad) + sign + digits;
    }
  }

  /** Leading zeros do not change a decimal value. */
  lemma {:induction false} LeadingZeros(zeros: string, digits: string)
    requires forall k :: 0 <= k < |zeros| ==> zeros[k] == '0'
    ensures ValueIn(zeros + digits, 10) == ValueIn(digits, 10)
    decreases |digits|, |zeros|
  {
    if digits != [] {
      var all := zeros + digits;
      assert all[..|all| - 1] == zeros + digits[..|digits| - 1];
      LeadingZeros(zeros, digits[..|digits| - 1]);
    } else if zeros != [] {
      assert zeros + digits == zeros[..|zeros| - 1] + ['0'];
      assert (zeros[..|zeros| - 1] + ['0'])[..|zeros| - 1] == zeros[..|zeros| - 1] + [];
      LeadingZeros(zeros[..|zeros| - 1], []);
    }
  }

  /** Octal and hexadecimal: no sign is written, and the digits, in either case, denote l modulo 2^64. */
  lemma RadixDigits(f: Format, l: Long)
    requires f.base in {8, 16}
    ensures Sign(f, l) == []
    ensures ValueIn(Cased(f, Body(f, l, AbsText(l))), f.base) == Unsigned64(l)
  {
    var body := Body(f, l, AbsText(l));
    DigitsRoundTrip(Unsigned64(l), f.base);
    UpperKeepsValue(body, f.base);
  }

  /** The '#' prefix is "0" in octal and "0x" in hexadecimal, "0X" with 'X'; there is none in base 10. */
  lemma RadixPrefix(f: Format)
    requires Special in f.flags
    ensures Cased(f, Prefix(f)) == if f.base == 8 then "0" else if f.base != 16 then "" else if Large in f.flags then "0X" else "0x"
  {
    assert ToUpper("0x") == "0X" by {
      assert ToUpper("0x")[1] == UpperChar('x');
    }
    assert ToUpper("0") == "0";
    assert ToUpper("") == "";
  }

  /** Width of `format(long)`: max(fieldWidth, sign, prefix and digits) in base 10 and for non-negative numbers without '+'; in octal and hexadecimal a negative number or '+' takes one column of the width although no sign is written. */
  lemma LongWidth(f: Format, l: Long)
    ensures var t := LongText(f, l);
      var content := |Sign(f, l)| + |Prefix(f)| + |Body(f, l, AbsText(l))|;
      if f.base != 10 && (l < 0 || Plus in f.flags) then |t| == Max(f.fieldWidth - 1, content)
      else |t| == Max(f.fieldWidth, content)
  {
  }
}
