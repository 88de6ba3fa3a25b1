/** Integer conversions of section 7.21.6.1 of ISO/IEC 9899:2011, and exactly when `print_integer`
    prints what they ask for. */
module PrintfStandard {
  import opened CStrings
  import opened Numerals
  import opened Printing
  import RoundTrip

  /** Calls as the conversions d, u, o, x and X make them: the alternative form is for o and x, signs
      are for d, a precision overrides zero padding and is zero if absent. */
  predicate Formatted(value: nat, negative: bool, base: nat, precision: nat, f: Flags) {
    && (base == 8 || base == 10 || base == 16) && value <= ULLONG_MAX && !f.pointer
    && (base == 10 ==> !f.hash) && (base != 10 ==> !negative && !f.plus && !f.space)
    && (f.precision ==> !f.zeroPad) && (!f.precision ==> precision == 0)
  }

  /** The letters of x are abcdef, those of X are ABCDEF. */
  function StandardDigit(d: nat, upper: bool): byte
    requires d < 16
  {
    (if upper then "0123456789ABCDEF"[d] else "0123456789abcdef"[d]) as int
  }

  function StandardDigits(value: nat, base: nat, upper: bool): seq<byte>
    requires 2 <= base <= 16
  {
    if value == 0 then [] else StandardDigits(value / base, base, upper) + [StandardDigit(value % base, upper)]
  }

  /** A minus sign, or what the flags + and space ask for; space gives way to +. */
  function StandardSign(negative: bool, f: Flags): seq<byte> {
    if negative then ['-' as int] else if f.plus then ['+' as int] else if f.space then [' ' as int] else []
  }

  /** A nonzero x or X conversion in alternative form begins with 0x or 0X. */
  function StandardPrefix(value: nat, base: nat, f: Flags): seq<byte> {
    if f.hash && base == 16 && value != 0 then ['0' as int, (if f.upper then 'X' else 'x') as int] else []
  }

  /** The least number of digits: the precision, or one; the alternative form of o raises it to begin with a zero. */
  function LeastDigits(value: nat, base: nat, precision: nat, f: Flags): nat
    requires 2 <= base <= 16
  {
    var p, n := if f.precision then precision else 1, |StandardDigits(value, base, f.upper)|;
    if f.hash && base == 8 && p <= n then n + 1 else p
  }

  /** Leading zeros: up to the least number of digits, or up to the field width. */
  function StandardZeros(value: nat, negative: bool, base: nat, precision: nat, width: nat, f: Flags): nat
    requires 2 <= base <= 16
  {
    var n := |StandardDigits(value, base, f.upper)|;
    var digits := Max(n, LeastDigits(value, base, precision, f));
    var rest := |StandardSign(negative, f)| + |StandardPrefix(value, base, f)|;
    (if f.zeroPad && !f.left && !f.precision && rest + digits < width then width - rest else digits) - n
  }

  /** Prefix, zeros and digits. */
  function StandardNumber(value: nat, negative: bool, base: nat, precision: nat, width: nat, f: Flags): seq<byte>
    requires 2 <= base <= 16
  {
    StandardPrefix(value, base, f) + Repeat(48, StandardZeros(value, negative, base, precision, width, f))
    + StandardDigits(value, base, f.upper)
  }

  /** The whole conversion, padded with spaces on the left, or on the right with the flag -. */
  function StandardText(value: nat, negative: bool, base: nat, precision: nat, width: nat, f: Flags): seq<byte>
    requires 2 <= base <= 16
  {
    var inner := StandardSign(negative, f) + StandardNumber(value, negative, base, precision, width, f);
    var pad := Repeat(32, if |inner| < width then width - |inner| else 0);
    if f.left then inner + pad else pad + inner
  }

  // ----- digits -----

  lemma SameDigit(d: nat, upper: bool)
    requires d < 16
    ensures DigitChar(d, upper) == StandardDigit(d, upper)
  {
  }

  lemma {:induction false} SameDigits(value: nat, base: nat, upper: bool, n: nat)
    requires 2 <= base <= 16 && |StandardDigits(value, base, upper)| <= n
    ensures Digits(value, base, upper, n) == StandardDigits(value, base, upper)
    decreases n
  {
    hide DigitChar, StandardDigit;
    if value > 0 {
      SameDigit(value % base, upper);
      SameDigits(value / base, base, upper, n - 1);
    }
  }

  lemma {:induction false} DigitsAtMost(value: nat, base: nat, upper: bool, k: nat)
    requires 2 <= base <= 16 && value < RoundTrip.Pow(base, k)
    ensures |StandardDigits(value, base, upper)| <= k
    decreases k
  {
    hide StandardDigit;
    if value > 0 && k > 0 {
      RoundTrip.DigitBound(value, base, RoundTrip.Pow(base, k - 1));
      DigitsAtMost(value / base, base, upper, k - 1);
    }
  }

  lemma WordDigits(value: nat, base: nat, upper: bool)
    requires (base == 8 || base == 10 || base == 16) && value <= ULLONG_MAX
    ensures |StandardDigits(value, base, upper)| <= 22
    ensures Digits(value, base, upper, BUFFER) == StandardDigits(value, base, upper)
    ensures value > 0 <==> StandardDigits(value, base, upper) != []
  {
    RoundTrip.AtMost22(value, base);
    DigitsAtMost(value, base, upper, 22);
    hide RoundTrip.Pow;
    SameDigits(value, base, upper, BUFFER);
  }

  // ----- numbers that fit the buffer -----

  /** What the layout has between sign and padding. */
  function NumberOf(l: Layout): seq<byte> {
    l.prefix + Repeat(48, l.zeros) + l.body
  }

  ghost predicate Agrees(value: nat, negative: bool, base: nat, precision: nat, width: nat, f: Flags)
    requires 2 <= base <= 16
  {
    var l, number := LayoutOf(value, negative, base, precision, width, f), StandardNumber(value, negative, base, precision, width, f);
    && NumberOf(l) == number
    && l.sign == (if |number| < BUFFER then StandardSign(negative, f) else [])
  }

  /** The parts of the number, counted. */
  function Count(value: nat, negative: bool, base: nat, precision: nat, width: nat, f: Flags): nat
    requires 2 <= base <= 16
  {
    |StandardPrefix(value, base, f)| + StandardZeros(value, negative, base, precision, width, f)
    + |StandardDigits(value, base, f.upper)|
  }

  /** Signs agree as long as one place is left for them. */
  ghost predicate SignAgrees(negative: bool, count: nat, f: Flags, l: Layout) {
    l.sign == if count < BUFFER then StandardSign(negative, f) else []
  }

  lemma ZeroLayout(negative: bool, base: nat, precision: nat, width: nat, f: Flags)
    requires Formatted(0, negative, base, precision, f) && !f.precision && Count(0, negative, base, precision, width, f) <= BUFFER
    ensures var l := LayoutOf(0, negative, base, precision, width, f);
      && l.prefix == [] && l.body == [48] && StandardPrefix(0, base, f) == [] && StandardDigits(0, base, f.upper) == []
      && StandardZeros(0, negative, base, precision, width, f) == l.zeros + 1
      && SignAgrees(negative, Count(0, negative, base, precision, width, f), f, l)
  {
  }

  lemma PlainLayout(value: nat, negative: bool, base: nat, precision: nat, width: nat, f: Flags)
    requires Formatted(value, negative, base, precision, f) && (value > 0 || f.precision) && !(f.hash && base == 8)
    requires !(f.hash && base == 16 && value != 0) && Count(value, negative, base, precision, width, f) <= BUFFER
    ensures var l := LayoutOf(value, negative, base, precision, width, f);
      && l.prefix == [] == StandardPrefix(value, base, f) && l.body == StandardDigits(value, base, f.upper)
      && StandardZeros(value, negative, base, precision, width, f) == l.zeros
      && SignAgrees(negative, Count(value, negative, base, precision, width, f), f, l)
  {
    WordDigits(value, base, f.upper);
    hide Digits, StandardDigits, PrefixText, TakenBack;
  }

  lemma OctalLayout(value: nat, precision: nat, width: nat, f: Flags)
    requires Formatted(value, false, 8, precision, f) && (value > 0 || f.precision) && f.hash
    requires Count(value, false, 8, precision, width, f) <= BUFFER
    ensures var l := LayoutOf(value, false, 8, precision, width, f);
      && l.body == StandardDigits(value, 8, f.upper) && StandardPrefix(value, 8, f) == []
      && (l.prefix == [] || (l.prefix == [48] && l.zeros == 0))
      && StandardZeros(value, false, 8, precision, width, f) == l.zeros + |l.prefix|
      && SignAgrees(false, Count(value, false, 8, precision, width, f), f, l)
  {
    WordDigits(value, 8, f.upper);
    hide Digits, StandardDigits, TakenBack, PrefixText;
    OctalPrefix(|StandardDigits(value, 8, f.upper)|, f);
  }

  lemma OctalPrefix(len: nat, f: Flags)
    requires len < BUFFER
    ensures PrefixText(8, len, f) == [48]
  {
  }

  lemma HexLayout(value: nat, precision: nat, width: nat, f: Flags)
    requires Formatted(value, false, 16, precision, f) && value > 0 && f.hash
    requires Count(value, false, 16, precision, width, f) <= BUFFER
    ensures var l := LayoutOf(value, false, 16, precision, width, f);
      && l.body == StandardDigits(value, 16, f.upper) && l.prefix == StandardPrefix(value, 16, f)
      && StandardZeros(value, false, 16, precision, width, f) == l.zeros
      && SignAgrees(false, Count(value, false, 16, precision, width, f), f, l)
  {
    WordDigits(value, 16, f.upper);
    hide Digits, StandardDigits, PrefixText, TakenBack;
    var n, field := |StandardDigits(value, 16, f.upper)|, FieldWidth(false, width, f);
    var padded := PaddedLength(n, field, precision, f);
    HexTaken(n, padded, field, precision, f);
    HexPrefix(TakenBack(n, padded, 16, field, precision, f), f);
  }

  /** Padding to the field gives two zeros back, if it has them. */
  lemma HexTaken(n: nat, padded: nat, field: nat, precision: nat, f: Flags)
    requires 0 < n <= padded
    ensures TakenBack(n, padded, 16, field, precision, f)
      == if !f.precision && (padded == precision || padded == field) then Max(n, if padded < 2 then 0 else padded - 2) else padded
  {
  }

  lemma HexPrefix(len: nat, f: Flags)
    requires len <= BUFFER
    ensures len + 2 <= BUFFER ==> PrefixText(16, len, f) == [48, if f.upper then 88 else 120]
  {
  }

  lemma OneMoreZero(n: nat, body: seq<byte>)
    ensures [] + Repeat(48, n) + [48] == [] + Repeat(48, n + 1) + []
    ensures [48] + Repeat(48, 0) + body == [] + Repeat(48, 1) + body
  {
  }

  /** A number that fits the digit buffer is built as the standard asks. */
  lemma NumberAgrees(value: nat, negative: bool, base: nat, precision: nat, width: nat, f: Flags)
    requires Formatted(value, negative, base, precision, f)
    requires |StandardNumber(value, negative, base, precision, width, f)| <= BUFFER
    ensures Agrees(value, negative, base, precision, width, f)
  {
    hide LayoutOf, StandardZeros, StandardPrefix, StandardDigits, Repeat;
    var l := LayoutOf(value, negative, base, precision, width, f);
    OneMoreZero(l.zeros, l.body);
    if value == 0 && !f.precision {
      ZeroLayout(negative, base, precision, width, f);
    } else if f.hash && base == 8 {
      OctalLayout(value, precision, width, f);
    } else if f.hash && base == 16 && value != 0 {
      HexLayout(value, precision, width, f);
    } else {
      PlainLayout(value, negative, base, precision, width, f);
    }
  }

  // ----- whole conversions -----

  /** Sign and number. */
  function StandardInner(value: nat, negative: bool, base: nat, precision: nat, width: nat, f: Flags): seq<byte>
    requires 2 <= base <= 16
  {
    StandardSign(negative, f) + StandardNumber(value, negative, base, precision, width, f)
  }

  /** Zero padding fills the field. */
  lemma ZerosFill(value: nat, negative: bool, base: nat, precision: nat, width: nat, f: Flags)
    requires 2 <= base <= 16 && f.zeroPad && !f.left && !f.precision
    ensures |StandardInner(value, negative, base, precision, width, f)| >= width
  {
    hide StandardDigits, StandardSign, StandardPrefix, LeastDigits;
  }

  lemma {:induction false} NoSpaceInDigits(value: nat, base: nat, upper: bool)
    requires 2 <= base <= 16
    ensures 32 !in StandardDigits(value, base, upper)
  {
    hide StandardDigit;
    if value > 0 {
      NoSpaceInDigits(value / base, base, upper);
      NotSpace(value % base, upper);
    }
  }

  lemma NotSpace(d: nat, upper: bool)
    requires d < 16
    ensures StandardDigit(d, upper) != 32
  {
    SameDigit(d, upper);
    hide StandardDigit;
  }

  lemma NoSpace(value: nat, negative: bool, base: nat, precision: nat, width: nat, f: Flags)
    requires 2 <= base <= 16
    ensures 32 !in StandardNumber(value, negative, base, precision, width, f)
  {
    NoSpaceInDigits(value, base, f.upper);
    hide StandardDigits, StandardZeros;
  }

  lemma InnerOf(l: Layout)
    ensures Inner(l) == l.sign + NumberOf(l)
  {
    assert l.sign + l.prefix + Repeat(48, l.zeros) + l.body == l.sign + (l.prefix + Repeat(48, l.zeros) + l.body);
  }

  /** How a text is placed in its field. */
  function Placed(inner: seq<byte>, width: nat, f: Flags): seq<byte> {
    var pad := Repeat(32, if |inner| < width then width - |inner| else 0);
    if f.left then inner + pad else if f.zeroPad then inner else pad + inner
  }

  lemma PrintPlaces(value: nat, negative: bool, base: nat, precision: nat, width: nat, f: Flags)
    requires 2 <= base <= 16
    ensures var l := LayoutOf(value, negative, base, precision, width, f);
      PrintText(l, f) == Placed(Inner(l), width, f) && |Inner(l)| <= BUFFER
  {
    var l := LayoutOf(value, negative, base, precision, width, f);
    hide Body, PaddedLength, TakenBack, PrefixText, SignText, HasPrefix, Inner;
    assert f.left || !f.zeroPad ==> l.field == width;
    InnerLength(l);
    assert Repeat(32, 0) == [];
  }

  lemma InnerLength(l: Layout)
    ensures |Inner(l)| == |l.sign| + |l.prefix| + l.zeros + |l.body|
  {
  }

  lemma StandardPlaces(value: nat, negative: bool, base: nat, precision: nat, width: nat, f: Flags)
    requires Formatted(value, negative, base, precision, f)
    ensures StandardText(value, negative, base, precision, width, f)
         == Placed(StandardInner(value, negative, base, precision, width, f), width, f)
  {
    hide StandardSign, StandardNumber;
    if f.zeroPad && !f.left {
      ZerosFill(value, negative, base, precision, width, f);
      var inner := StandardInner(value, negative, base, precision, width, f);
      assert Repeat(32, 0) + inner == inner;
    }
  }

  /** The lost space of a number that fills the buffer is made up for by the padding. */
  ghost predicate SpaceMadeUp(inner: seq<byte>, width: nat, f: Flags) {
    |inner| == BUFFER + 1 && inner[0] == 32 && !f.left && !f.zeroPad && width > BUFFER
  }

  /** A short text in place of a long one shows, but for a space in front of it. */
  lemma PlacedDiffers(short: seq<byte>, long: seq<byte>, width: nat, f: Flags)
    requires |short| <= BUFFER < |long| && long[|long| - 1] != 32 && long[1] != 32
    ensures Placed(short, width, f) != Placed(long, width, f) || SpaceMadeUp(long, width, f)
  {
    var a, b := Placed(short, width, f), Placed(long, width, f);
    if width >= |long| {
      if f.left {
        assert a[|long| - 1] == 32 && b[|long| - 1] == long[|long| - 1];
      } else if !f.zeroPad {
        var k := width - |long|;
        assert a[k] == 32 && b[k] == long[0];
        if |long| > BUFFER + 1 {
          assert a[k + 1] == 32 && b[k + 1] == long[1];
        }
      }
    } else {
      assert |a| < |b|;
    }
  }

  /** `print_integer` prints what section 7.21.6.1 asks for exactly if sign, prefix, zeros and digits
      fit its buffer, or only a space is lost that the field width puts back. */
  lemma PrintsStandard(value: nat, negative: bool, base: nat, precision: nat, width: nat, f: Flags)
    requires Formatted(value, negative, base, precision, f)
    ensures var inner := StandardInner(value, negative, base, precision, width, f);
      PrintText(LayoutOf(value, negative, base, precision, width, f), f)
        == StandardText(value, negative, base, precision, width, f)
      <==> |inner| <= BUFFER || SpaceMadeUp(inner, width, f)
  {
    hide LayoutOf, StandardText, StandardNumber, PrintText, Inner, Placed, SpaceMadeUp, NumberOf;
    var l, inner := LayoutOf(value, negative, base, precision, width, f), StandardInner(value, negative, base, precision, width, f);
    var number := StandardNumber(value, negative, base, precision, width, f);
    PrintPlaces(value, negative, base, precision, width, f);
    StandardPlaces(value, negative, base, precision, width, f);
    InnerOf(l);
    NoSpace(value, negative, base, precision, width, f);
    if |number| <= BUFFER {
      NumberAgrees(value, negative, base, precision, width, f);
    }
    if |inner| <= BUFFER {
      NoSign(number);
      assert Inner(l) == inner;
    } else {
      LongShape(value, negative, base, precision, width, f);
      PlacedDiffers(Inner(l), inner, width, f);
      NoSign(number);
      MadeUp(inner, number, width, f);
    }
  }

  lemma NoSign(number: seq<byte>)
    ensures [] + number == number
  {
  }

  lemma LongShape(value: nat, negative: bool, base: nat, precision: nat, width: nat, f: Flags)
    requires 2 <= base <= 16 && |StandardInner(value, negative, base, precision, width, f)| > BUFFER
    ensures var inner, number := StandardInner(value, negative, base, precision, width, f), StandardNumber(value, negative, base, precision, width, f);
      && inner[|inner| - 1] != 32 && inner[1] != 32
      && (inner[0] == 32 && |inner| == BUFFER + 1 ==> inner == [32] + number && |number| == BUFFER)
  {
    NoSpace(value, negative, base, precision, width, f);
    hide StandardNumber;
    var sign, number := StandardSign(negative, f), StandardNumber(value, negative, base, precision, width, f);
    var inner := sign + number;
    assert inner[|inner| - 1] == number[|number| - 1];
    assert inner[1] == number[1 - |sign|];
    assert sign == [] ==> inner[0] == number[0];
  }

  lemma MadeUp(inner: seq<byte>, number: seq<byte>, width: nat, f: Flags)
    requires |inner| == BUFFER + 1 && inner[0] == 32 ==> inner == [32] + number && |number| == BUFFER
    ensures SpaceMadeUp(inner, width, f) ==> |number| == BUFFER && Placed(number, width, f) == Placed(inner, width, f)
  {
    if SpaceMadeUp(inner, width, f) {
      assert Repeat(32, width - BUFFER) == Repeat(32, width - BUFFER - 1) + [32];
    }
  }
}
