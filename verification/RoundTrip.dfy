/** Printing an integer and reading it back. */
module RoundTrip {
  import opened Arith
  import opened CStrings
  import opened Numerals
  import opened Printing

  // ----- the value of printed digits -----

  function Pow(b: nat, n: nat): nat {
    if n == 0 then 1 else b * Pow(b, n - 1)
  }

  lemma {:induction false} PowAtLeast(b: nat, n: nat)
    requires b >= 4
    ensures Pow(b, n) >= Pow2(2 * n)
  {
    if n > 0 {
      PowAtLeast(b, n - 1);
      MulMonotone(4, b, Pow(b, n - 1));
      assert Pow2(2 * n) == 2 * Pow2(2 * n - 1) == 4 * Pow2(2 * n - 2);
    }
  }

  lemma WordFits(value: nat, base: nat)
    requires value <= ULLONG_MAX && base >= 4
    ensures value < Pow(base, BUFFER)
  {
    Pow32();
    PowSum(32, 32);
    PowAtLeast(base, BUFFER);
  }

  lemma DigitBound(value: nat, base: nat, p: nat)
    requires base > 0 && value < base * p
    ensures value / base < p
  {
    if value / base >= p {
      MulMonotone(p, value / base, base);
    }
  }

  /** The digits stand for the value, if there is room for all of them. */
  lemma {:induction false} DigitsValue(value: nat, base: nat, upper: bool, n: nat)
    requires 2 <= base <= 16 && value < Pow(base, n)
    ensures AllDigits(Digits(value, base, upper, n), base) && Value(Digits(value, base, upper, n), base) == value
    decreases n
  {
    if value > 0 && n > 0 {
      DigitBound(value, base, Pow(base, n - 1));
      DigitsValue(value / base, base, upper, n - 1);
      DigitsStep(value, base, upper, n);
      ValueSnoc(Digits(value / base, base, upper, n - 1), DigitChar(value % base, upper), base);
      Split(value, base);
    }
  }

  lemma {:induction false} LeadingZero(s: seq<byte>, base: nat)
    requires AllDigits(s, base) && base > 0
    ensures AllDigits([48] + s, base) && Value([48] + s, base) == Value(s, base)
  {
    if s == [] {
      assert [48] + s == [] + [48];
      ValueSnoc([], 48, base);
    } else {
      hide Value;
      var t, c := s[..|s| - 1], s[|s| - 1];
      assert s == t + [c] && [48] + s == ([48] + t) + [c];
      assert DigitIn(c, base);
      LeadingZero(t, base);
      ValueSnoc(t, c, base);
      ValueSnoc([48] + t, c, base);
    }
  }

  lemma {:induction false} LeadingZeros(n: nat, s: seq<byte>, base: nat)
    requires AllDigits(s, base) && base > 0
    ensures AllDigits(Repeat(48, n) + s, base) && Value(Repeat(48, n) + s, base) == Value(s, base)
  {
    if n == 0 {
      RepeatNone(s);
    } else {
      LeadingZeros(n - 1, s, base);
      RepeatMore(n - 1, s);
      LeadingZero(Repeat(48, n - 1) + s, base);
    }
  }

  lemma BodyValue(value: nat, base: nat, f: Flags)
    requires 4 <= base <= 16 && value <= ULLONG_MAX
    ensures AllDigits(Body(value, base, f), base) && Value(Body(value, base, f), base) == value
  {
    if value == 0 && !f.precision {
      ValueSnoc([], 48, base);
      assert [] + [48] == [48];
    } else {
      WordFits(value, base);
      DigitsValue(value, base, f.upper, BUFFER);
    }
  }

  // ----- reading a text by its parts -----

  ghost predicate IsSign(g: seq<byte>) {
    g == [] || g == [45] || g == [43]
  }

  ghost predicate IsHexPrefix(p: seq<byte>, base: nat) {
    p == [] || (base == 16 && (p == [48, 120] || p == [48, 88]))
  }

  ghost predicate AllSpaces(s: seq<byte>) {
    forall i | 0 <= i < |s| :: IsSpace(s[i])
  }

  lemma ReadParts(pre: seq<byte>, g: seq<byte>, p: seq<byte>, digits: seq<byte>, tail: seq<byte>, base: nat)
    requires AllSpaces(pre) && IsSign(g) && IsHexPrefix(p, base) && 2 <= base <= 16
    requires digits != [] && AllDigits(digits, base) && tail != [] && (tail[0] == 0 || tail[0] == 32)
    ensures var s := pre + g + p + digits + tail; var start := |pre| + |g| + |p|;
      NumeralAt(s, base, Numeral(g == [45], base, start, start + |digits|), |pre|) && s[start..start + |digits|] == digits
  {
    var s := pre + g + p + digits + tail;
    var i, j, k := |pre|, |pre| + |g|, |pre| + |g| + |p|;
    assert s[k] == digits[0] && s[k + |digits|] == tail[0];
    assert g != [] ==> s[i] == g[0];
    assert p != [] ==> s[j] == p[0] && s[j + 1] == p[1];
    assert |digits| > 1 ==> s[k + 1] == digits[1];
    assert s[k..k + |digits|] == digits;
    assert AfterSpaces(s, i) by {
      assert forall m | 0 <= m < i :: s[m] == pre[m];
    }
  }

  /** A text in parts reads as its sign and digits. */
  lemma ReadNumeral(pre: seq<byte>, g: seq<byte>, p: seq<byte>, digits: seq<byte>, tail: seq<byte>, base: nat, n: Numeral)
    requires AllSpaces(pre) && IsSign(g) && IsHexPrefix(p, base) && 2 <= base <= 16
    requires digits != [] && AllDigits(digits, base) && tail != [] && (tail[0] == 0 || tail[0] == 32)
    requires IsNumeral(pre + g + p + digits + tail, base, n)
    ensures var s := pre + g + p + digits + tail;
      && n.negative == (g == [45]) && n.base == base && n.start < n.end == |s| - |tail| && s[n.start..n.end] == digits
  {
    hide NumeralAt, AllSpaces, IsSign, IsHexPrefix, AllDigits;
    var s, start := pre + g + p + digits + tail, |pre| + |g| + |p|;
    var m := Numeral(g == [45], base, start, start + |digits|);
    ReadParts(pre, g, p, digits, tail, base);
    assert |pre| < |s| && NumeralAt(s, base, m, |pre|);
    assert IsNumeral(s, base, m);
    hide IsNumeral;
    OneNumeral(s, base, n, m);
  }

  /** A text that starts with a letter that is no digit reads as no number. */
  lemma ReadLetter(pre: seq<byte>, c: byte, rest: seq<byte>, n: Numeral)
    requires AllSpaces(pre) && (c == 120 || c == 88)
    requires IsNumeral(pre + [c] + rest, 16, n)
    ensures !n.negative && n.base == 16 && n.start == n.end == |pre|
  {
    var s := pre + [c] + rest;
    var m := Numeral(false, 16, |pre|, |pre|);
    assert s[|pre|] == c && forall j | 0 <= j < |pre| :: s[j] == pre[j];
    assert s[|pre|..|pre|] == [];
    assert NumeralAt(s, 16, m, |pre|);
    hide NumeralAt;
    assert IsNumeral(s, 16, m);
    hide IsNumeral;
    OneNumeral(s, 16, n, m);
  }

  // ----- the parts of a printed integer -----

  /** The prefix letter is printed without its zero. */
  ghost predicate Torn(l: Layout, base: nat) {
    base == 16 && |l.prefix| == 1
  }

  function LeadOf(l: Layout, f: Flags): seq<byte> {
    (if f.left || f.zeroPad then [] else Spaces(|Inner(l)|, l.field)) + (if l.sign == [32] then [32] else [])
  }

  function SignOf(l: Layout): seq<byte> {
    if l.sign == [32] then [] else l.sign
  }

  function HexPrefixOf(l: Layout, base: nat): seq<byte> {
    if base == 16 then l.prefix else []
  }

  function DigitsOf(l: Layout, base: nat): seq<byte> {
    (if base == 16 then [] else l.prefix) + (Repeat(48, l.zeros) + l.body)
  }

  function TailOf(l: Layout, f: Flags): seq<byte> {
    (if f.left then Spaces(|Inner(l)|, l.field) else []) + [0]
  }

  lemma Glue(lead: seq<byte>, sign: seq<byte>, a: seq<byte>, h: seq<byte>, d: seq<byte>, pz: seq<byte>, trail: seq<byte>)
    requires a == lead + sign && h + d == pz
    ensures a + h + d + (trail + [0]) == lead + (sign + pz) + trail + [0]
  {
    assert a + h + d == a + (h + d) == lead + (sign + pz);
  }

  lemma TextParts(l: Layout, f: Flags, base: nat)
    ensures PrintText(l, f) + [0] == LeadOf(l, f) + SignOf(l) + HexPrefixOf(l, base) + DigitsOf(l, base) + TailOf(l, f)
  {
    InnerGrouped(l);
    hide Repeat, Spaces, Inner;
    var pad, z := Spaces(|Inner(l)|, l.field), Repeat(48, l.zeros) + l.body;
    var lead := if f.left || f.zeroPad then [] else pad;
    var trail := if f.left then pad else [];
    assert LeadOf(l, f) + SignOf(l) == lead + l.sign;
    assert HexPrefixOf(l, base) + DigitsOf(l, base) == l.prefix + z;
    Glue(lead, l.sign, LeadOf(l, f) + SignOf(l), HexPrefixOf(l, base), DigitsOf(l, base), l.prefix + z, trail);
    PrintTextIs(l, f, lead, trail);
  }

  lemma PrintTextIs(l: Layout, f: Flags, lead: seq<byte>, trail: seq<byte>)
    requires lead == (if f.left || f.zeroPad then [] else Spaces(|Inner(l)|, l.field))
    requires trail == (if f.left then Spaces(|Inner(l)|, l.field) else [])
    ensures PrintText(l, f) == lead + Inner(l) + trail
  {
    hide Spaces, Inner;
    assert [] + Inner(l) == Inner(l);
  }

  lemma PartsShape(value: nat, negative: bool, base: nat, precision: nat, width: nat, f: Flags)
    requires base == 8 || base == 10 || base == 16
    ensures var l := LayoutOf(value, negative, base, precision, width, f);
      && AllSpaces(LeadOf(l, f)) && IsSign(SignOf(l))
      && (!Torn(l, base) ==> IsHexPrefix(HexPrefixOf(l, base), base))
      && (Torn(l, base) ==> l.sign == [] && (l.prefix == [120] || l.prefix == [88]))
      && (base != 16 ==> l.prefix == [] || l.prefix == [48])
      && (TailOf(l, f)[0] == 0 || TailOf(l, f)[0] == 32)
      && (SignOf(l) == [45] ==> negative)
  {
    hide Body, Inner, Repeat, PaddedLength, TakenBack, FieldWidth;
  }

  lemma DigitsOfValue(value: nat, negative: bool, base: nat, precision: nat, width: nat, f: Flags)
    requires (base == 8 || base == 10 || base == 16) && value <= ULLONG_MAX
    ensures var d := DigitsOf(LayoutOf(value, negative, base, precision, width, f), base);
      AllDigits(d, base) && Value(d, base) == value
  {
    hide Value, Body, Repeat, PaddedLength, TakenBack, FieldWidth, PrefixText, SignText, Digits;
    var l := LayoutOf(value, negative, base, precision, width, f);
    assert l.body == Body(value, base, f);
    PartsShape(value, negative, base, precision, width, f);
    hide LayoutOf;
    BodyValue(value, base, f);
    LeadingZeros(l.zeros, l.body, base);
    var z := Repeat(48, l.zeros) + l.body;
    assert [] + z == z;
    LeadingZero(z, base);
  }

  // ----- reading back -----

  /** A printed integer as a C string. */
  function Printed(value: nat, negative: bool, base: nat, precision: nat, width: nat, f: Flags): seq<byte>
    requires 2 <= base <= 16
  {
    PrintText(LayoutOf(value, negative, base, precision, width, f), f) + [0]
  }

  function DigitCount(l: Layout): nat {
    l.zeros + |l.body|
  }

  /** Neither the sign nor the zero of a hexadecimal prefix is lost at the end of the digit buffer. */
  predicate Intact(l: Layout, negative: bool, base: nat) {
    && (negative ==> DigitCount(l) + |l.prefix| < BUFFER)
    && (base == 16 && l.prefix != [] ==> DigitCount(l) < BUFFER - 1)
  }

  lemma IntactExactly(value: nat, negative: bool, base: nat, precision: nat, width: nat, f: Flags)
    requires base == 8 || base == 10 || base == 16
    ensures var l := LayoutOf(value, negative, base, precision, width, f);
      Intact(l, negative, base) <==> !Torn(l, base) && (negative <==> SignOf(l) == [45])
  {
    LayoutParts(value, negative, base, precision, width, f);
    hide Body, PaddedLength, TakenBack, FieldWidth, LayoutOf, HasPrefix;
  }

  /** An untorn text reads as its sign and value, and the digits run up to the trailing padding. */
  lemma ReadUntorn(value: nat, negative: bool, base: nat, precision: nat, width: nat, f: Flags, n: Numeral)
    requires (base == 8 || base == 10 || base == 16) && value <= ULLONG_MAX
    requires var l := LayoutOf(value, negative, base, precision, width, f); !Torn(l, base) && DigitCount(l) > 0
    requires IsNumeral(Printed(value, negative, base, precision, width, f), base, n)
    ensures var l, s := LayoutOf(value, negative, base, precision, width, f), Printed(value, negative, base, precision, width, f);
      && n.negative == (SignOf(l) == [45]) && n.start < n.end == |s| - |TailOf(l, f)|
      && AllDigits(s[n.start..n.end], n.base) && NumeralValue(s, n) == value
  {
    hide LeadOf, SignOf, HexPrefixOf, Spaces, PrintText, Value, AllSpaces, IsSign, IsHexPrefix, Torn, IsNumeral, LayoutOf;
    var l, s := LayoutOf(value, negative, base, precision, width, f), Printed(value, negative, base, precision, width, f);
    TextParts(l, f, base);
    PartsShape(value, negative, base, precision, width, f);
    DigitsOfValue(value, negative, base, precision, width, f);
    assert DigitsOf(l, base) != [] && TailOf(l, f) != [];
    hide DigitsOf, TailOf;
    ReadNumeral(LeadOf(l, f), SignOf(l), HexPrefixOf(l, base), DigitsOf(l, base), TailOf(l, f), base, n);
  }

  /** A torn text starts with the letter of its prefix and reads as no number at all. */
  lemma ReadTorn(value: nat, negative: bool, precision: nat, width: nat, f: Flags, n: Numeral)
    requires Torn(LayoutOf(value, negative, 16, precision, width, f), 16)
    requires IsNumeral(Printed(value, negative, 16, precision, width, f), 16, n)
    ensures !n.negative && n.start == n.end && n.end <= |Printed(value, negative, 16, precision, width, f)|
    ensures n.base == 16
  {
    hide LeadOf, DigitsOf, TailOf, PrintText, AllSpaces, IsNumeral, LayoutOf;
    var l, s := LayoutOf(value, negative, 16, precision, width, f), Printed(value, negative, 16, precision, width, f);
    TextParts(l, f, 16);
    PartsShape(value, negative, 16, precision, width, f);
    var a, rest := LeadOf(l, f), DigitsOf(l, 16) + TailOf(l, f);
    assert s == a + [] + l.prefix + DigitsOf(l, 16) + TailOf(l, f) == a + [l.prefix[0]] + rest;
    ReadLetter(a, l.prefix[0], rest, n);
  }

  /** Bytes of which zero is the only digit. */
  ghost predicate Blank(s: seq<byte>) {
    forall i | 0 <= i < |s| :: s[i] in {0, 32, 43, 45, 48, 88, 120}
  }

  lemma {:induction false} BlankValue(s: seq<byte>, base: nat)
    requires Blank(s) && AllDigits(s, base) && base <= 16
    ensures Value(s, base) == 0
  {
    if s != [] {
      var t, c := s[..|s| - 1], s[|s| - 1];
      assert DigitIn(c, base);
      assert c == 48;
      BlankValue(t, base);
    }
  }

  lemma BlankParts(a: seq<byte>, g: seq<byte>, p: seq<byte>, d: seq<byte>, t: seq<byte>)
    requires Blank(a) && Blank(g) && Blank(p) && Blank(d) && Blank(t)
    ensures Blank(a + g + p + d + t)
  {
  }

  lemma BlankLayout(value: nat, negative: bool, base: nat, precision: nat, width: nat, f: Flags)
    requires base == 8 || base == 10 || base == 16
    requires DigitCount(LayoutOf(value, negative, base, precision, width, f)) == 0
    ensures var l := LayoutOf(value, negative, base, precision, width, f);
      Blank(LeadOf(l, f)) && Blank(SignOf(l)) && Blank(HexPrefixOf(l, base)) && Blank(DigitsOf(l, base)) && Blank(TailOf(l, f))
    ensures value == 0
  {
    hide LayoutOf, PaddedLength, TakenBack, FieldWidth, HasPrefix, Inner, LeadOf, TailOf;
    LayoutParts(value, negative, base, precision, width, f);
    BlankEnds(LayoutOf(value, negative, base, precision, width, f), f);
  }

  lemma BlankEnds(l: Layout, f: Flags)
    ensures Blank(LeadOf(l, f)) && Blank(TailOf(l, f))
  {
    hide Inner;
  }

  /** A text without digits reads as zero; only a zero is printed so. */
  lemma ReadBlank(value: nat, negative: bool, base: nat, precision: nat, width: nat, f: Flags, n: Numeral)
    requires base == 8 || base == 10 || base == 16
    requires DigitCount(LayoutOf(value, negative, base, precision, width, f)) == 0
    requires IsNumeral(Printed(value, negative, base, precision, width, f), base, n)
    requires var s := Printed(value, negative, base, precision, width, f);
      n.start <= n.end <= |s| && AllDigits(s[n.start..n.end], n.base)
    ensures value == 0 && NumeralValue(Printed(value, negative, base, precision, width, f), n) == 0
  {
    var l, s := LayoutOf(value, negative, base, precision, width, f), Printed(value, negative, base, precision, width, f);
    BlankLayout(value, negative, base, precision, width, f);
    TextParts(l, f, base);
    hide Blank, LayoutOf, PrintText, Value;
    BlankParts(LeadOf(l, f), SignOf(l), HexPrefixOf(l, base), DigitsOf(l, base), TailOf(l, f));
    BlankSlice(s, n.start, n.end);
    BlankValue(s[n.start..n.end], n.base);
  }

  lemma BlankSlice(s: seq<byte>, i: nat, j: nat)
    requires Blank(s) && i <= j <= |s|
    ensures Blank(s[i..j])
  {
  }

  /** Printed and read back with `strtoull`, a value returns exactly if its hexadecimal prefix was not torn. */
  lemma UnsignedRoundTrip(value: nat, base: nat, precision: nat, width: nat, f: Flags, n: Numeral, r: Parsed)
    requires (base == 8 || base == 10 || base == 16) && value <= ULLONG_MAX
    requires ReadsUnsigned(Printed(value, false, base, precision, width, f), base, n, r)
    ensures var l := LayoutOf(value, false, base, precision, width, f);
      r.value == value <==> value == 0 || Intact(l, false, base)
    ensures var l := LayoutOf(value, false, base, precision, width, f); Intact(l, false, base) && DigitCount(l) > 0 ==>
      r.errno == NoError && r.end == |Printed(value, false, base, precision, width, f)| - |TailOf(l, f)|
  {
    var l, s := LayoutOf(value, false, base, precision, width, f), Printed(value, false, base, precision, width, f);
    IntactExactly(value, false, base, precision, width, f);
    PartsShape(value, false, base, precision, width, f);
    hide LayoutOf, Printed, Intact, LeadOf, TailOf, IsNumeral;
    if DigitCount(l) == 0 {
      ReadBlank(value, false, base, precision, width, f, n);
    } else if Torn(l, base) {
      ReadTorn(value, false, precision, width, f, n);
      assert s[n.start..n.end] == [];
    } else {
      ReadUntorn(value, false, base, precision, width, f, n);
    }
  }

  /** Printed and read back with `strtoll`, a value returns exactly if neither sign nor prefix was lost. */
  lemma SignedRoundTrip(value: nat, negative: bool, base: nat, precision: nat, width: nat, f: Flags, n: Numeral, r: Parsed)
    requires (base == 8 || base == 10 || base == 16) && value <= LLONG_MAX + (if negative then 1 else 0)
    requires ReadsSigned(Printed(value, negative, base, precision, width, f), base, n, r)
    ensures var l := LayoutOf(value, negative, base, precision, width, f);
      r.value == (if negative then 0 - value else value as int) <==> value == 0 || Intact(l, negative, base)
    ensures var l := LayoutOf(value, negative, base, precision, width, f); Intact(l, negative, base) && DigitCount(l) > 0 ==>
      r.errno == NoError && r.end == |Printed(value, negative, base, precision, width, f)| - |TailOf(l, f)|
  {
    hide LayoutOf, Printed, Intact, LeadOf, TailOf, IsNumeral, ReadsSigned, NumeralValue, Torn, SignOf;
    var l, s := LayoutOf(value, negative, base, precision, width, f), Printed(value, negative, base, precision, width, f);
    IntactExactly(value, negative, base, precision, width, f);
    PartsShape(value, negative, base, precision, width, f);
    SignedOf(s, base, n, r);
    if DigitCount(l) == 0 {
      ReadBlank(value, negative, base, precision, width, f, n);
    } else if Torn(l, base) {
      TornBase(l, base);
      ReadTorn(value, negative, precision, width, f, n);
      NoDigitsNoValue(s, n);
    } else {
      ReadUntorn(value, negative, base, precision, width, f, n);
    }
  }

  lemma TornBase(l: Layout, base: nat)
    requires Torn(l, base)
    ensures base == 16
  {
  }

  lemma NoDigitsNoValue(s: seq<byte>, n: Numeral)
    requires n.start == n.end <= |s|
    ensures AllDigits(s[n.start..n.end], n.base) && NumeralValue(s, n) == 0
  {
    assert s[n.start..n.end] == [];
  }

  /** A result in range is the value with its sign. */
  lemma SignedOf(s: seq<byte>, base: nat, n: Numeral, r: Parsed)
    requires ReadsSigned(s, base, n, r)
    ensures IsNumeral(s, base, n) && n.start <= n.end <= |s| && AllDigits(s[n.start..n.end], n.base)
    ensures r.end == EndOf(n)
    ensures var v := NumeralValue(s, n);
      if n.negative then v <= LLONG_MAX + 1 ==> r.value == 0 - v && r.errno == NoError
      else r.value == (if v <= LLONG_MAX then v else LLONG_MAX) && (v <= LLONG_MAX ==> r.errno == NoError)
  {
  }

  /** One and minus one, printed to precisions that fill the digit buffer, do not return. */
  lemma LostExamples(n: Numeral, r: Parsed)
    ensures var f := Flags(false, false, false, false, true, false, true, false);
      ReadsUnsigned(Printed(1, false, 16, 31, 0, f), 16, n, r) ==> r.value != 1
    ensures var f := Flags(false, false, false, false, false, false, true, false);
      ReadsSigned(Printed(1, true, 10, 32, 0, f), 10, n, r) ==> r.value != -1
  {
    var hash := Flags(false, false, false, false, true, false, true, false);
    var plain := Flags(false, false, false, false, false, false, true, false);
    NotIntact();
    hide LayoutOf, Printed, ReadsUnsigned, ReadsSigned, Intact;
    if ReadsUnsigned(Printed(1, false, 16, 31, 0, hash), 16, n, r) {
      UnsignedRoundTrip(1, 16, 31, 0, hash, n, r);
    }
    if ReadsSigned(Printed(1, true, 10, 32, 0, plain), 10, n, r) {
      SignedRoundTrip(1, true, 10, 32, 0, plain, n, r);
    }
  }

  lemma NotIntact()
    ensures var f := Flags(false, false, false, false, true, false, true, false);
      !Intact(LayoutOf(1, false, 16, 31, 0, f), false, 16)
    ensures var f := Flags(false, false, false, false, false, false, true, false);
      !Intact(LayoutOf(1, true, 10, 32, 0, f), true, 10)
  {
  }

  // ----- plain formats -----

  lemma {:induction false} FewDigits(value: nat, base: nat, upper: bool, n: nat, k: nat)
    requires 2 <= base <= 16 && value < Pow(base, k)
    ensures |Digits(value, base, upper, n)| <= k
    decreases n
  {
    if value > 0 && n > 0 && k > 0 {
      DigitBound(value, base, Pow(base, k - 1));
      DigitsStep(value, base, upper, n);
      FewDigits(value / base, base, upper, n - 1, k - 1);
    }
  }

  lemma {:induction false} PowAtLeast8(b: nat, n: nat)
    requires b >= 8
    ensures Pow(b, n) >= Pow2(3 * n)
  {
    if n > 0 {
      PowAtLeast8(b, n - 1);
      MulMonotone(8, b, Pow(b, n - 1));
      assert Pow2(3 * n) == 2 * Pow2(3 * n - 1) == 4 * Pow2(3 * n - 2) == 8 * Pow2(3 * n - 3);
    }
  }

  /** Without padding, precision and alternative form a 64-bit value takes at most 22 digits. */
  lemma PlainIntact(value: nat, negative: bool, base: nat, f: Flags)
    requires (base == 8 || base == 10 || base == 16) && value <= ULLONG_MAX
    requires !f.hash && !f.pointer && !f.precision
    ensures var l := LayoutOf(value, negative, base, 0, 0, f); Intact(l, negative, base) && DigitCount(l) > 0
    ensures var l := LayoutOf(value, negative, base, 0, 0, f); TailOf(l, f) == [0]
  {
    AtMost22(value, base);
    FewDigits(value, base, f.upper, BUFFER, 22);
    hide Digits, Pow;
  }

  lemma AtMost22(value: nat, base: nat)
    requires value <= ULLONG_MAX && base >= 8
    ensures value < Pow(base, 22)
  {
    Pow32();
    PowSum(32, 32);
    PowersGrow(64, 66);
    PowAtLeast8(base, 22);
  }

  lemma NoZeroBytes(a: seq<byte>, b: seq<byte>)
    requires (forall i | 0 <= i < |a| :: a[i] != 0) && IsCString(b)
    ensures IsCString(a + b)
  {
  }

  lemma PartsAreCString(a: seq<byte>, g: seq<byte>, p: seq<byte>, d: seq<byte>, t: seq<byte>, base: nat)
    requires AllSpaces(a) && IsSign(g) && IsHexPrefix(p, base) && AllDigits(d, base) && IsCString(t)
    ensures IsCString(a + g + p + d + t)
  {
    forall i | 0 <= i < |d| ensures d[i] != 0 {
      assert DigitIn(d[i], base);
    }
    NoZeroBytes(d, t);
    NoZeroBytes(p, d + t);
    NoZeroBytes(g, p + (d + t));
    NoZeroBytes(a, g + (p + (d + t)));
    hide *;
    assert a + (g + (p + (d + t))) == a + g + p + d + t;
  }

  lemma PlainIsCString(value: nat, negative: bool, base: nat, f: Flags)
    requires (base == 8 || base == 10 || base == 16) && value <= ULLONG_MAX
    requires !f.hash && !f.pointer && !f.precision
    ensures IsCString(Printed(value, negative, base, 0, 0, f)) && |Printed(value, negative, base, 0, 0, f)| <= BUFFER + 1
  {
    var l := LayoutOf(value, negative, base, 0, 0, f);
    PlainIntact(value, negative, base, f);
    IntactExactly(value, negative, base, 0, 0, f);
    PartsShape(value, negative, base, 0, 0, f);
    DigitsOfValue(value, negative, base, 0, 0, f);
    TextParts(l, f, base);
    assert |PrintText(l, f)| <= BUFFER;
    hide LayoutOf, PrintText, LeadOf, SignOf, HexPrefixOf, DigitsOf;
    PartsAreCString(LeadOf(l, f), SignOf(l), HexPrefixOf(l, base), DigitsOf(l, base), TailOf(l, f), base);
  }

  /** Prints a value into a buffer, as `snprintf` does with a plain format. */
  method PrintPlain(value: nat, negative: bool, base: nat, f: Flags) returns (s: seq<byte>)
    requires (base == 8 || base == 10 || base == 16) && value <= ULLONG_MAX
    requires !f.hash && !f.pointer && !f.precision
    ensures s == Printed(value, negative, base, 0, 0, f)
  {
    hide PrintText, LayoutOf, IsCString, Terminated, Gadget.Valid;
    PlainIsCString(value, negative, base, f);
    var buffer := new byte[BUFFER + 1](_ => 0);
    var out := new Gadget(buffer);
    PrintInteger(out, value, negative, base, 0, 0, f);
    assert [] + PrintText(LayoutOf(value, negative, base, 0, 0, f), f) == out.text;
    var n := out.AppendTermination();
    NotCut(out.text, BUFFER + 1);
    s := buffer[..n];
  }

  lemma NotCut(text: seq<byte>, maxChars: nat)
    requires |text| < maxChars
    ensures Terminated(text, maxChars) == text + [0]
  {
    assert text[..|text|] == text;
  }

  /** `%lld`, `%llx` or `%llo` and back through `strtoll`: the same integer, and the whole text is read. */
  method PrintThenStrtoll(value: int, base: nat, f: Flags) returns (r: Parsed)
    requires (base == 8 || base == 10 || base == 16) && -LLONG_MAX - 1 <= value <= LLONG_MAX
    requires !f.hash && !f.pointer && !f.precision
    ensures r.value == value && r.errno == NoError
    ensures r.end == |Printed(if value < 0 then 0 - value else value, value < 0, base, 0, 0, f)| - 1
  {
    var magnitude := if value < 0 then -value else value;
    PlainIntact(magnitude, value < 0, base, f);
    PlainIsCString(magnitude, value < 0, base, f);
    hide Printed, LayoutOf, IsCString, Intact, TailOf, ReadsSigned, DigitCount;
    var s := PrintPlain(magnitude, value < 0, base, f);
    ghost var n;
    r, n := Strtoll(s, base);
    SignedRoundTrip(magnitude, value < 0, base, 0, 0, f, n, r);
  }

  /** `%llu`, `%llx` or `%llo` and back through `strtoull`. */
  method PrintThenStrtoull(value: nat, base: nat, f: Flags) returns (r: Parsed)
    requires (base == 8 || base == 10 || base == 16) && value <= ULLONG_MAX
    requires !f.hash && !f.pointer && !f.precision
    ensures r.value == value && r.errno == NoError && r.end == |Printed(value, false, base, 0, 0, f)| - 1
  {
    PlainIntact(value, false, base, f);
    PlainIsCString(value, false, base, f);
    hide Printed, LayoutOf, IsCString, Intact, TailOf, ReadsUnsigned, DigitCount;
    var s := PrintPlain(value, false, base, f);
    ghost var n;
    r, n := Strtoull(s, base);
    UnsignedRoundTrip(value, base, 0, 0, f, n, r);
  }
}
