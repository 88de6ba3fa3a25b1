/** Reading integers: `strtoll` and `strtoull` against the value of a digit string. */
module Numerals {
  import opened Arith
  import opened CStrings

  const LLONG_MAX := 0x7fff_ffff_ffff_ffff
  const ULLONG_MAX := 0xffff_ffff_ffff_ffff

  predicate IsSpace(c: byte) {
    c == 32 || 9 <= c < 14
  }

  predicate IsDigit(c: byte) {
    48 <= c < 58
  }

  predicate IsUpper(c: byte) {
    65 <= c < 91
  }

  predicate IsAlpha(c: byte) {
    IsUpper(c) || 97 <= c < 123
  }

  /** The value of a digit or letter, -1 for any other byte. */
  function DigitOf(c: byte): (d: int)
    ensures -1 <= d < 36
  {
    if IsDigit(c) then c - 48 else if IsUpper(c) then c - 55 else if IsAlpha(c) then c - 87 else -1
  }

  predicate DigitIn(c: byte, base: nat) {
    0 <= DigitOf(c) < base
  }

  ghost predicate AllDigits(s: seq<byte>, base: nat) {
    forall i | 0 <= i < |s| :: DigitIn(s[i], base)
  }

  /** The number a digit string stands for. */
  ghost function Value(s: seq<byte>, base: nat): nat
    requires AllDigits(s, base)
  {
    if s == [] then 0 else Value(s[..|s| - 1], base) * base + DigitOf(s[|s| - 1])
  }

  lemma ValueSnoc(s: seq<byte>, c: byte, base: nat)
    requires AllDigits(s, base) && DigitIn(c, base)
    ensures AllDigits(s + [c], base) && Value(s + [c], base) == Value(s, base) * base + DigitOf(c)
  {
    assert (s + [c])[..|s|] == s;
  }

  // ----- the parts of a numeral -----

  /** Where leading white space ends. */
  ghost predicate AfterSpaces(s: seq<byte>, i: nat) {
    i < |s| && !IsSpace(s[i]) && forall j | 0 <= j < i :: IsSpace(s[j])
  }

  /** Where the digits that start at `i` end. */
  ghost predicate AfterDigits(s: seq<byte>, base: nat, i: nat, end: nat) {
    i <= end < |s| && AllDigits(s[i..end], base) && !DigitIn(s[end], base)
  }

  predicate HexPrefix(s: seq<byte>, i: nat, base: nat) {
    (base == 0 || base == 16) && i + 1 < |s| && s[i] == 48 && (s[i + 1] == 120 || s[i + 1] == 88)
  }

  function SignWidth(c: byte): nat {
    if c == 45 || c == 43 then 1 else 0
  }

  /** Base 0 stands for the base the numeral itself shows. */
  function BaseFor(s: seq<byte>, i: nat, base: nat): nat
    requires i < |s|
  {
    if HexPrefix(s, i, base) then 16 else if base != 0 then base else if s[i] == 48 then 8 else 10
  }

  function DigitsStart(s: seq<byte>, i: nat, base: nat): nat {
    if HexPrefix(s, i, base) then i + 2 else i
  }

  datatype Numeral = Numeral(negative: bool, base: nat, start: nat, end: nat)

  /** How `strtoll` takes a string apart: white space, a sign, a hexadecimal prefix, digits. */
  ghost predicate IsNumeral(s: seq<byte>, base: nat, n: Numeral) {
    exists i | 0 <= i < |s| :: NumeralAt(s, base, n, i)
  }

  ghost predicate NumeralAt(s: seq<byte>, base: nat, n: Numeral, i: nat) {
    && AfterSpaces(s, i) && n.negative == (s[i] == 45)
    && var j := i + SignWidth(s[i]);
    && j < |s| && n.base == BaseFor(s, j, base) && n.start == DigitsStart(s, j, base)
    && AfterDigits(s, n.base, n.start, n.end)
  }

  lemma DigitAt(s: seq<byte>, base: nat, i: nat, end: nat, k: nat)
    requires i <= k < end <= |s| && AllDigits(s[i..end], base)
    ensures DigitIn(s[k], base)
  {
    assert s[i..end][k - i] == s[k];
  }

  lemma EndAtMost(s: seq<byte>, base: nat, i: nat, e: nat, f: nat)
    requires AfterDigits(s, base, i, e) && AfterDigits(s, base, i, f)
    ensures e <= f
  {
    if f < e {
      DigitAt(s, base, i, e, f);
    }
  }

  /** A string has one reading. */
  lemma OneNumeral(s: seq<byte>, base: nat, n: Numeral, m: Numeral)
    requires IsNumeral(s, base, n) && IsNumeral(s, base, m)
    ensures n == m
  {
    var i :| 0 <= i < |s| && NumeralAt(s, base, n, i);
    var j :| 0 <= j < |s| && NumeralAt(s, base, m, j);
    assert i == j;
    EndAtMost(s, n.base, n.start, n.end, m.end);
    EndAtMost(s, n.base, n.start, m.end, n.end);
  }

  // ----- the results -----

  datatype Errno = NoError | InvalidBase | OutOfRange

  datatype Parsed = Parsed(value: int, end: nat, errno: Errno)

  ghost function NumeralValue(s: seq<byte>, n: Numeral): nat
    requires n.start <= n.end <= |s| && AllDigits(s[n.start..n.end], n.base)
  {
    Value(s[n.start..n.end], n.base)
  }

  /** The end pointer: behind the digits, or the start of the string if there are none. */
  function EndOf(n: Numeral): nat {
    if n.start == n.end then 0 else n.end
  }

  /** The value clamped to the range of `long long`. */
  ghost predicate SignedResult(s: seq<byte>, n: Numeral, r: Parsed)
    requires n.start <= n.end <= |s| && AllDigits(s[n.start..n.end], n.base)
  {
    var v := if n.negative then 0 - NumeralValue(s, n) else NumeralValue(s, n) as int;
    && r.end == EndOf(n)
    && r.value == (if v > LLONG_MAX then LLONG_MAX else if v < -LLONG_MAX - 1 then -LLONG_MAX - 1 else v)
    && r.errno == (if -LLONG_MAX - 1 <= v <= LLONG_MAX then NoError else OutOfRange)
  }

  /** The value, negated modulo 2^64 after a minus sign, or `ULLONG_MAX` if it does not fit. */
  ghost predicate UnsignedResult(s: seq<byte>, n: Numeral, r: Parsed)
    requires n.start <= n.end <= |s| && AllDigits(s[n.start..n.end], n.base)
  {
    var v := NumeralValue(s, n);
    && r.end == EndOf(n)
    && r.value == (if v > ULLONG_MAX then ULLONG_MAX else if n.negative && v > 0 then ULLONG_MAX + 1 - v else v)
    && r.errno == (if v <= ULLONG_MAX then NoError else OutOfRange)
  }

  /** `strtoll` reads numeral `n` and returns `r`. */
  ghost predicate ReadsSigned(s: seq<byte>, base: nat, n: Numeral, r: Parsed) {
    IsNumeral(s, base, n) && SignedResult(s, n, r)
  }

  /** `strtoull` reads numeral `n` and returns `r`. */
  ghost predicate ReadsUnsigned(s: seq<byte>, base: nat, n: Numeral, r: Parsed) {
    IsNumeral(s, base, n) && UnsignedResult(s, n, r)
  }

  // ----- the reading of the standard -----

  /** Section 7.22.1.4 of ISO/IEC 9899:2011: a hexadecimal prefix counts only before a digit. */
  predicate StandardPrefix(s: seq<byte>, j: nat, base: nat) {
    HexPrefix(s, j, base) && j + 2 < |s| && DigitIn(s[j + 2], 16)
  }

  ghost predicate StandardAt(s: seq<byte>, base: nat, n: Numeral, i: nat) {
    && AfterSpaces(s, i) && n.negative == (s[i] == 45)
    && var j := i + SignWidth(s[i]);
    && j < |s|
    && n.base == (if StandardPrefix(s, j, base) then 16 else if base != 0 then base else if s[j] == 48 then 8 else 10)
    && n.start == (if StandardPrefix(s, j, base) then j + 2 else j)
    && AfterDigits(s, n.base, n.start, n.end)
  }

  ghost predicate IsStandard(s: seq<byte>, base: nat, n: Numeral) {
    exists i | 0 <= i < |s| :: StandardAt(s, base, n, i)
  }

  /** `r` is what the standard asks of `strtoll`. */
  ghost predicate StandardSigned(s: seq<byte>, base: nat, r: Parsed) {
    exists n :: StandardReadsSigned(s, base, n, r)
  }

  ghost predicate StandardReadsSigned(s: seq<byte>, base: nat, n: Numeral, r: Parsed) {
    IsStandard(s, base, n) && SignedResult(s, n, r)
  }

  /** `r` is what the standard asks of `strtoull`. */
  ghost predicate StandardUnsigned(s: seq<byte>, base: nat, r: Parsed) {
    exists n :: StandardReadsUnsigned(s, base, n, r)
  }

  ghost predicate StandardReadsUnsigned(s: seq<byte>, base: nat, n: Numeral, r: Parsed) {
    IsStandard(s, base, n) && UnsignedResult(s, n, r)
  }

  /** The numeral is a hexadecimal prefix without a digit behind it. */
  ghost predicate BarePrefix(s: seq<byte>, base: nat) {
    exists i | 0 <= i < |s| :: BareAt(s, base, i)
  }

  ghost predicate BareAt(s: seq<byte>, base: nat, i: nat) {
    AfterSpaces(s, i) && var j := i + SignWidth(s[i]); HexPrefix(s, j, base) && !(j + 2 < |s| && DigitIn(s[j + 2], 16))
  }

  lemma OneStandard(s: seq<byte>, base: nat, n: Numeral, m: Numeral)
    requires IsStandard(s, base, n) && IsStandard(s, base, m)
    ensures n == m
  {
    var i :| 0 <= i < |s| && StandardAt(s, base, n, i);
    var j :| 0 <= j < |s| && StandardAt(s, base, m, j);
    SameSpaces(s, i, j);
    EndAtMost(s, n.base, n.start, n.end, m.end);
    EndAtMost(s, n.base, n.start, m.end, n.end);
  }

  lemma SameSpaces(s: seq<byte>, i: nat, j: nat)
    requires AfterSpaces(s, i) && AfterSpaces(s, j)
    ensures i == j
  {
  }

  /** Without a bare prefix the code reads what the standard reads. */
  lemma ReadsStandard(s: seq<byte>, base: nat, n: Numeral)
    requires IsNumeral(s, base, n) && !BarePrefix(s, base)
    ensures IsStandard(s, base, n)
  {
    var i :| 0 <= i < |s| && NumeralAt(s, base, n, i);
    assert !BareAt(s, base, i);
    assert StandardAt(s, base, n, i);
  }

  /** At a bare prefix the code finds no digit; the standard reads its zero. */
  lemma ReadsBare(s: seq<byte>, base: nat, n: Numeral, m: Numeral)
    requires IsNumeral(s, base, n) && BarePrefix(s, base) && IsStandard(s, base, m)
    ensures n.start == n.end && m.end == m.start + 1
  {
    var i :| 0 <= i < |s| && NumeralAt(s, base, n, i);
    var k :| 0 <= k < |s| && BareAt(s, base, k);
    var l :| 0 <= l < |s| && StandardAt(s, base, m, l);
    SameSpaces(s, i, k);
    SameSpaces(s, i, l);
    ReadsBareAt(s, base, n, m, i);
  }

  lemma ReadsBareAt(s: seq<byte>, base: nat, n: Numeral, m: Numeral, i: nat)
    requires i < |s| && NumeralAt(s, base, n, i) && BareAt(s, base, i) && StandardAt(s, base, m, i)
    ensures n.start == n.end && m.end == m.start + 1
  {
    hide AfterSpaces, DigitOf;
    var j := i + SignWidth(s[i]);
    if n.start < n.end {
      DigitAt(s, 16, n.start, n.end, n.start);
    }
    LetterX(s[j + 1], m.base);
    ZeroDigit(m.base);
    assert s[j..j + 1] == [s[j]];
    EndAtMost(s, m.base, j, m.end, j + 1);
    EndAtMost(s, m.base, j, j + 1, m.end);
  }

  lemma ZeroDigit(base: nat)
    requires base > 0
    ensures DigitIn(48, base)
  {
  }

  lemma LetterX(c: byte, base: nat)
    requires (c == 120 || c == 88) && base <= 16
    ensures !DigitIn(c, base)
  {
  }

  /** `strtoll` conforms exactly if the numeral is not a bare prefix. */
  lemma SignedConforms(s: seq<byte>, base: nat, n: Numeral, r: Parsed)
    requires ReadsSigned(s, base, n, r)
    ensures StandardSigned(s, base, r) <==> !BarePrefix(s, base)
  {
    hide BarePrefix;
    if !BarePrefix(s, base) {
      ReadsStandard(s, base, n);
      assert StandardReadsSigned(s, base, n, r);
    } else if StandardSigned(s, base, r) {
      var m :| StandardReadsSigned(s, base, m, r);
      ReadsBare(s, base, n, m);
    }
  }

  /** So does `strtoull`. */
  lemma UnsignedConforms(s: seq<byte>, base: nat, n: Numeral, r: Parsed)
    requires ReadsUnsigned(s, base, n, r)
    ensures StandardUnsigned(s, base, r) <==> !BarePrefix(s, base)
  {
    hide BarePrefix;
    if !BarePrefix(s, base) {
      ReadsStandard(s, base, n);
      assert StandardReadsUnsigned(s, base, n, r);
    } else if StandardUnsigned(s, base, r) {
      var m :| StandardReadsUnsigned(s, base, m, r);
      ReadsBare(s, base, n, m);
    }
  }

  /** At a bare prefix the standard asks for zero and an end behind it, where the code gives the start. */
  lemma BareResult(s: seq<byte>, base: nat, n: Numeral, i: nat)
    requires IsNumeral(s, base, n) && i < |s| && BareAt(s, base, i)
    ensures var r := Parsed(0, i + SignWidth(s[i]) + 1, NoError); StandardSigned(s, base, r) && StandardUnsigned(s, base, r)
    ensures EndOf(n) == 0
  {
    hide IsNumeral, IsStandard, BareAt, Value;
    var m := BareZero(s, base, i);
    var r := Parsed(0, m.end, NoError);
    ReadsBare(s, base, n, m);
    assert StandardReadsSigned(s, base, m, r) && StandardReadsUnsigned(s, base, m, r);
  }

  /** The zero of a bare prefix, read as the standard reads it. */
  lemma BareZero(s: seq<byte>, base: nat, i: nat) returns (m: Numeral)
    requires i < |s| && BareAt(s, base, i)
    ensures BarePrefix(s, base) && IsStandard(s, base, m)
    ensures m.end == m.start + 1 == i + SignWidth(s[i]) + 1 <= |s| && AllDigits(s[m.start..m.end], m.base)
    ensures NumeralValue(s, m) == 0
  {
    hide DigitOf, AfterSpaces;
    var j := i + SignWidth(s[i]);
    m := Numeral(s[i] == 45, if base == 0 then 8 else base, j, j + 1);
    LetterX(s[j + 1], m.base);
    ZeroDigit(m.base);
    assert s[j..j + 1] == [48];
    ZeroValue(m.base);
    assert StandardAt(s, base, m, i);
  }

  lemma ZeroValue(base: nat)
    requires base > 0
    ensures AllDigits([48], base) && Value([48], base) == 0
  {
    assert [] + [48] == [48];
    ValueSnoc([], 48, base);
  }

  /** The standard asks for one result. */
  lemma OneSigned(s: seq<byte>, base: nat, r: Parsed, q: Parsed)
    requires StandardSigned(s, base, r) && StandardSigned(s, base, q)
    ensures r == q
  {
    var n :| StandardReadsSigned(s, base, n, r);
    var m :| StandardReadsSigned(s, base, m, q);
    OneStandard(s, base, n, m);
    hide IsStandard;
  }

  lemma OneUnsigned(s: seq<byte>, base: nat, r: Parsed, q: Parsed)
    requires StandardUnsigned(s, base, r) && StandardUnsigned(s, base, q)
    ensures r == q
  {
    var n :| StandardReadsUnsigned(s, base, n, r);
    var m :| StandardReadsUnsigned(s, base, m, q);
    OneStandard(s, base, n, m);
    hide IsStandard;
  }

  /** At "0x" in base 16 the code reports that nothing was converted; the standard stops behind the zero. */
  lemma BarePrefixExample(n: Numeral, r: Parsed)
    requires ReadsSigned([48, 120, 0], 16, n, r)
    ensures r == Parsed(0, 0, NoError) && StandardSigned([48, 120, 0], 16, Parsed(0, 1, NoError))
  {
    var s: seq<byte> := [48, 120, 0];
    assert BareAt(s, 16, 0);
    BareResult(s, 16, n, 0);
    assert s[n.start..n.end] == [];
  }

  // ----- the digit loop -----

  lemma CutoffTest(acc: nat, base: nat, d: nat, limit: nat, cutoff: nat, cutlim: nat)
    requires d < base && limit == cutoff * base + cutlim && cutlim < base
    ensures acc > cutoff || (acc == cutoff && d > cutlim) <==> acc * base + d > limit
  {
    if acc > cutoff {
      MulMonotone(cutoff + 1, acc, base);
    } else if acc < cutoff {
      MulMonotone(acc + 1, cutoff, base);
    }
  }

  function Append(acc: nat, base: nat, d: nat): nat {
    acc * base + d
  }

  lemma Split(limit: nat, base: nat)
    requires base > 0
    ensures limit == limit / base * base + limit % base && 0 <= limit % base < base && limit / base >= 0
  {
  }

  /** What the loop knows of the value `v` of the digits so far: it, or that it is out of range for good. */
  ghost predicate Holds(v: nat, limit: nat, acc: nat, any: int) {
    if any < 0 then any == -1 && v > limit else acc == v <= limit
  }

  lemma HoldsStep(v: nat, limit: nat, acc: nat, any: int, base: nat, d: nat, cutoff: nat, cutlim: nat)
    requires Holds(v, limit, acc, any) && limit == cutoff * base + cutlim && cutlim < base && d < base
    ensures if any < 0 || acc > cutoff || (acc == cutoff && d > cutlim)
      then Holds(v * base + d, limit, acc, -1)
      else Holds(v * base + d, limit, Append(acc, base, d), 1)
  {
    CutoffTest(acc, base, d, limit, cutoff, cutlim);
    MulMonotone(1, base, v);
  }

  ghost predicate Accumulated(s: seq<byte>, base: nat, start: nat, i: nat, limit: nat, acc: nat, any: int) {
    && start <= i < |s| && AllDigits(s[start..i], base) && (any == 0 <==> i == start)
    && Holds(Value(s[start..i], base), limit, acc, any)
  }

  lemma AccumulateStep(s: seq<byte>, base: nat, start: nat, i: nat, limit: nat, acc: nat, any: int, cutoff: nat, cutlim: nat)
    requires Accumulated(s, base, start, i, limit, acc, any) && DigitIn(s[i], base) && i + 1 < |s|
    requires limit == cutoff * base + cutlim && cutlim < base
    ensures var d := DigitOf(s[i]);
      if any < 0 || acc > cutoff || (acc == cutoff && d > cutlim)
      then Accumulated(s, base, start, i + 1, limit, acc, -1)
      else Accumulated(s, base, start, i + 1, limit, Append(acc, base, d), 1)
  {
    assert s[start..i + 1] == s[start..i] + [s[i]];
    ValueSnoc(s[start..i], s[i], base);
    hide Value, Holds;
    HoldsStep(Value(s[start..i], base), limit, acc, any, base, DigitOf(s[i]), cutoff, cutlim);
  }

  lemma AccumulateNone(s: seq<byte>, base: nat, start: nat, limit: nat)
    requires start < |s|
    ensures Accumulated(s, base, start, start, limit, 0, 0)
  {
    assert s[start..start] == [];
  }

  lemma DigitsSoFar(s: seq<byte>, base: nat, start: nat, i: nat, limit: nat, acc: nat, any: int)
    requires Accumulated(s, base, start, i, limit, acc, any)
    ensures start <= i < |s| && AllDigits(s[start..i], base)
  {
  }

  method ReadDigit(c: byte) returns (d: int)
    ensures d == DigitOf(c)
  {
    if c >= 128 {
      d := -1;
    } else if IsDigit(c) {
      d := c - 48;
    } else if IsAlpha(c) {
      d := c - if IsUpper(c) then 55 else 87;
    } else {
      d := -1;
    }
  }

  /** Adds up digits from `start` on; -1 in `any` marks a value beyond `limit`. */
  method ReadDigits(s: seq<byte>, start: nat, base: nat, limit: nat) returns (acc: nat, any: int, end: nat)
    requires IsCString(s) && start < |s| && 2 <= base <= 36
    ensures AfterDigits(s, base, start, end) && Accumulated(s, base, start, end, limit, acc, any)
  {
    Split(limit, base);
    var cutlim, cutoff := limit % base, limit / base;
    acc, any, end := 0, 0, start;
    AccumulateNone(s, base, start, limit);
    hide Accumulated, DigitOf, Append;
    while true
      invariant end < |s| && Accumulated(s, base, start, end, limit, acc, any)
      decreases |s| - end
    {
      DigitsSoFar(s, base, start, end, limit, acc, any);
      var d := ReadDigit(s[end]);
      if d < 0 || d >= base {
        break;
      }
      NoDigit(s[end]);
      AccumulateStep(s, base, start, end, limit, acc, any, cutoff, cutlim);
      if any < 0 || acc > cutoff || (acc == cutoff && d > cutlim) {
        any := -1;
      } else {
        any := 1;
        acc := Append(acc, base, d);
      }
      end := end + 1;
    }
    DigitsSoFar(s, base, start, end, limit, acc, any);
  }

  /** The terminator is no digit. */
  lemma NoDigit(c: byte)
    ensures DigitOf(c) >= 0 ==> c != 0
  {
  }

  /** White space, sign and prefix. */
  method ReadHeader(s: seq<byte>, base: nat) returns (negative: bool, b: nat, start: nat, ghost i: nat)
    requires IsCString(s) && base != 1 && base <= 36
    ensures AfterSpaces(s, i) && negative == (s[i] == 45)
    ensures var j := i + SignWidth(s[i]); j < |s| && b == BaseFor(s, j, base) && start == DigitsStart(s, j, base)
    ensures start < |s| && 2 <= b <= 36
  {
    var k := 0;
    while IsSpace(s[k])
      invariant k < |s| && forall j | 0 <= j < k :: IsSpace(s[j])
      decreases |s| - k
    {
      k := k + 1;
    }
    i := k;
    negative := false;
    if s[k] == 45 {
      negative := true;
      k := k + 1;
    } else if s[k] == 43 {
      k := k + 1;
    }
    b, start := base, k;
    if (base == 0 || base == 16) && s[k] == 48 && (s[k + 1] == 120 || s[k + 1] == 88) {
      start := k + 2;
      b := 16;
    }
    if b == 0 {
      b := if s[start] == 48 then 8 else 10;
    }
  }

  method Strtoll(s: seq<byte>, base: int) returns (r: Parsed, ghost n: Numeral)
    requires IsCString(s)
    ensures base < 0 || base == 1 || base > 36 ==> r == Parsed(0, 0, InvalidBase)
    ensures 0 <= base <= 36 && base != 1 ==> ReadsSigned(s, base, n, r)
    ensures 0 <= base <= 36 && base != 1 ==> (StandardSigned(s, base, r) <==> !BarePrefix(s, base))
  {
    n := Numeral(false, 0, 0, 0);
    if base < 0 || base == 1 || base > 36 {
      return Parsed(0, 0, InvalidBase), n;
    }
    var negative, b, start, i := ReadHeader(s, base);
    var limit := if negative then LLONG_MAX + 1 else LLONG_MAX;
    var acc, any, end := ReadDigits(s, start, b, limit);
    n := Numeral(negative, b, start, end);
    assert NumeralAt(s, base, n, i);
    var e := if any != 0 then end else 0;
    if any < 0 {
      r := Parsed(if negative then -LLONG_MAX - 1 else LLONG_MAX, e, OutOfRange);
    } else {
      var value: int := acc;
      r := Parsed(if negative then -value else value, e, NoError);
    }
    SignedConforms(s, base, n, r);
  }

  method Strtoull(s: seq<byte>, base: int) returns (r: Parsed, ghost n: Numeral)
    requires IsCString(s)
    ensures base < 0 || base == 1 || base > 36 ==> r == Parsed(0, 0, InvalidBase)
    ensures 0 <= base <= 36 && base != 1 ==> ReadsUnsigned(s, base, n, r)
    ensures 0 <= base <= 36 && base != 1 ==> (StandardUnsigned(s, base, r) <==> !BarePrefix(s, base))
  {
    n := Numeral(false, 0, 0, 0);
    if base < 0 || base == 1 || base > 36 {
      return Parsed(0, 0, InvalidBase), n;
    }
    var negative, b, start, i := ReadHeader(s, base);
    var acc, any, end := ReadDigits(s, start, b, ULLONG_MAX);
    n := Numeral(negative, b, start, end);
    assert NumeralAt(s, base, n, i);
    var e := if any != 0 then end else 0;
    if any < 0 {
      r := Parsed(ULLONG_MAX, e, OutOfRange);
    } else {
      r := Parsed(if negative then (ULLONG_MAX + 1 - acc) % (ULLONG_MAX + 1) else acc, e, NoError);
    }
    UnsignedConforms(s, base, n, r);
  }
}
