/** Printing integers: `print_integer` with its padding, prefix and sign, and reading them back. */
module Printing {
  import opened CStrings
  import opened Numerals

  const BUFFER := 32

  datatype Flags = Flags(
    left: bool, zeroPad: bool, plus: bool, space: bool, hash: bool, pointer: bool, precision: bool, upper: bool)

  function DigitChar(d: nat, upper: bool): (c: byte)
    requires d < 16
    ensures c != 0 && DigitOf(c) == d
  {
    if d < 10 then 48 + d else (if upper then 65 else 97) + d - 10
  }

  /** The last `n` digits of a value, most significant first, without leading zeros. */
  function Digits(value: nat, base: nat, upper: bool, n: nat): (s: seq<byte>)
    requires 2 <= base <= 16
    ensures |s| <= n && (value > 0 && n > 0 ==> |s| > 0)
    decreases n
  {
    if value == 0 || n == 0 then [] else Digits(value / base, base, upper, n - 1) + [DigitChar(value % base, upper)]
  }

  function Repeat(c: byte, n: nat): (s: seq<byte>)
    ensures |s| == n && forall i | 0 <= i < n :: s[i] == c
  {
    seq(n, _ => c)
  }

  // ----- the layout of a printed integer -----

  function Body(value: nat, base: nat, f: Flags): (s: seq<byte>)
    requires 2 <= base <= 16
    ensures |s| <= BUFFER
  {
    if value == 0 && !f.precision then [48] else Digits(value, base, f.upper, BUFFER)
  }

  /** The alternative form is dropped for a zero that would look the same in it. */
  predicate Alternative(value: nat, base: nat, f: Flags) {
    f.hash && !(value == 0 && (!f.precision || base == 16))
  }

  /** A zero-padded field leaves room for the sign. */
  function FieldWidth(negative: bool, width: nat, f: Flags): nat {
    if !f.left && width > 0 && f.zeroPad && (negative || f.plus || f.space) then width - 1 else width
  }

  function Max(a: nat, b: nat): nat {
    if a < b then b else a
  }

  function Min(a: nat, b: nat): nat {
    if a < b then a else b
  }

  /** The length with leading zeros: up to the field width or the precision, within the buffer. */
  function PaddedLength(len: nat, field: nat, precision: nat, f: Flags): (n: nat)
    requires len <= BUFFER
    ensures len <= n <= BUFFER
  {
    var first := if !f.left && f.zeroPad then Max(len, Min(field, BUFFER)) else len;
    Max(first, Min(precision, BUFFER))
  }

  /** With a prefix to come, some padding zeros are taken back. */
  function TakenBack(len: nat, padded: nat, base: nat, field: nat, precision: nat, f: Flags): (n: nat)
    requires len <= padded
    ensures len <= n <= padded
  {
    if !f.precision && padded > 0 && (padded == precision || padded == field) then
      var one := if len < padded then padded - 1 else padded;
      if one > 0 && (base == 16 || base == 2) && len < one then one - 1 else one
    else padded
  }

  predicate HasPrefix(value: nat, base: nat, len: nat, padded: nat, f: Flags) {
    (Alternative(value, base, f) && !(base == 8 && padded > len)) || f.pointer
  }

  function PrefixLetter(base: nat, f: Flags): seq<byte> {
    if base == 16 then [if f.upper then 88 else 120] else if base == 2 then [98] else []
  }

  /** The prefix in reading order; the last place in the buffer takes the letter without its zero. */
  function PrefixText(base: nat, len: nat, f: Flags): (s: seq<byte>)
    requires len <= BUFFER
    ensures len + |s| <= BUFFER
  {
    var letter := if len < BUFFER then PrefixLetter(base, f) else [];
    (if len + |letter| < BUFFER then [48] else []) + letter
  }

  function SignText(negative: bool, len: nat, f: Flags): (s: seq<byte>)
    ensures len <= BUFFER ==> len + |s| <= BUFFER
  {
    if len >= BUFFER then [] else if negative then [45] else if f.plus then [43] else if f.space then [32] else []
  }

  datatype Layout = Layout(sign: seq<byte>, prefix: seq<byte>, zeros: nat, body: seq<byte>, field: nat)

  function LayoutOf(value: nat, negative: bool, base: nat, precision: nat, width: nat, f: Flags): (l: Layout)
    requires 2 <= base <= 16
    ensures |l.sign| + |l.prefix| + l.zeros + |l.body| <= BUFFER
  {
    var body := Body(value, base, f);
    var field := FieldWidth(negative, width, f);
    var padded := PaddedLength(|body|, field, precision, f);
    var prefixed := HasPrefix(value, base, |body|, padded, f);
    var len := if prefixed then TakenBack(|body|, padded, base, field, precision, f) else padded;
    var prefix := if prefixed then PrefixText(base, len, f) else [];
    Layout(SignText(negative, len + |prefix|, f), prefix, len - |body|, body, field)
  }

  /** The characters of a printed integer, without field padding. */
  function Inner(l: Layout): seq<byte> {
    l.sign + l.prefix + Repeat(48, l.zeros) + l.body
  }

  function Spaces(n: nat, width: nat): seq<byte> {
    if n < width then Repeat(32, width - n) else []
  }

  /** The printed text: right-aligned in its field, or left-aligned on request. */
  function PrintText(l: Layout, f: Flags): seq<byte> {
    var pad := Spaces(|Inner(l)|, l.field);
    if f.left then Inner(l) + pad else if f.zeroPad then Inner(l) else pad + Inner(l)
  }

  // ----- the code -----

  function Rev(s: seq<byte>): (r: seq<byte>)
    ensures |r| == |s| && forall i | 0 <= i < |s| :: r[i] == s[|s| - 1 - i]
  {
    seq(|s|, i requires 0 <= i < |s| => s[|s| - 1 - i])
  }

  lemma RevCons(c: byte, s: seq<byte>)
    ensures Rev([c] + s) == Rev(s) + [c]
  {
  }

  lemma RevSnoc(s: seq<byte>, c: byte)
    ensures Rev(s + [c]) == [c] + Rev(s)
  {
  }

  /** An output buffer: characters past its end are counted and dropped. */
  class Gadget {
    const buffer: array<byte>
    const maxChars: nat
    var pos: nat
    ghost var text: seq<byte>

    ghost predicate Valid()
      reads this, buffer
    {
      && maxChars <= buffer.Length && pos == |text|
      && forall i | 0 <= i < pos && i < maxChars :: buffer[i] == text[i]
    }

    constructor (buffer: array<byte>)
      ensures Valid() && text == [] && this.buffer == buffer && maxChars == buffer.Length
    {
      this.buffer, maxChars, pos, text := buffer, buffer.Length, 0, [];
    }

    method Putchar(c: byte)
      requires Valid()
      modifies this, buffer
      ensures Valid() && text == old(text) + [c]
    {
      var at := pos;
      pos := pos + 1;
      if at < maxChars {
        buffer[at] := c;
      }
      text := text + [c];
    }

    method AppendTermination() returns (n: nat)
      requires Valid() && maxChars > 0
      modifies buffer
      ensures n <= buffer.Length && buffer[..n] == Terminated(text, maxChars)
    {
      var at := if pos < maxChars then pos else maxChars - 1;
      buffer[at] := 0;
      n := at + 1;
      assert buffer[..at] == text[..at];
    }
  }

  /** The buffer as a C string: the text, cut to what fits before its terminator. */
  ghost function Terminated(text: seq<byte>, maxChars: nat): seq<byte>
    requires maxChars > 0
  {
    text[..Min(|text|, maxChars - 1)] + [0]
  }

  /** Writes one more character in front of the text held in reverse. */
  method Prepend(buf: array<byte>, len: nat, c: byte, ghost x: seq<byte>) returns (n: nat)
    requires buf.Length == BUFFER && len < BUFFER && buf[..len] == Rev(x)
    modifies buf
    ensures n == len + 1 && buf[..n] == Rev([c] + x)
  {
    buf[len] := c;
    RevCons(c, x);
    n := len + 1;
    assert buf[..n] == buf[..len] + [c];
  }

  lemma RepeatMore(n: nat, x: seq<byte>)
    ensures [48] + (Repeat(48, n) + x) == Repeat(48, n + 1) + x
  {
  }

  lemma RepeatNone(x: seq<byte>)
    ensures Repeat(48, 0) + x == x
  {
  }

  /** Leading zeros up to a length, as far as the buffer goes. */
  method FillZeros(buf: array<byte>, len: nat, to: nat, ghost zeros: nat, ghost x: seq<byte>) returns (n: nat)
    requires buf.Length == BUFFER && len <= BUFFER && buf[..len] == Rev(Repeat(48, zeros) + x)
    modifies buf
    ensures n == Max(len, Min(to, BUFFER)) && buf[..n] == Rev(Repeat(48, zeros + (n - len)) + x)
  {
    hide Rev, Repeat;
    n := len;
    while n < to && n < BUFFER
      invariant len <= n <= Max(len, Min(to, BUFFER)) && buf[..n] == Rev(Repeat(48, zeros + (n - len)) + x)
    {
      RepeatMore(zeros + (n - len), x);
      n := Prepend(buf, n, 48, Repeat(48, zeros + (n - len)) + x);
    }
  }

  /** Digits from the least significant on, as far as the buffer goes. */
  method FillDigits(buf: array<byte>, v: nat, base: nat, upper: bool) returns (len: nat)
    requires buf.Length == BUFFER && 2 <= base <= 16 && v > 0
    modifies buf
    ensures len <= BUFFER && buf[..len] == Rev(Digits(v, base, upper, BUFFER))
  {
    hide Rev, Digits, DigitChar;
    var value := v;
    len := 0;
    ghost var rest := Digits(v, base, upper, BUFFER);
    assert buf[..0] + Rev(rest) == Rev(rest);
    while true
      invariant value > 0 && 0 <= len < BUFFER && buf[..len] + Rev(rest) == Rev(Digits(v, base, upper, BUFFER))
      invariant rest == Digits(value, base, upper, BUFFER - len)
      decreases BUFFER - len
    {
      DigitsStep(value, base, upper, BUFFER - len);
      var c := DigitChar(value % base, upper);
      ghost var tail := Digits(value / base, base, upper, BUFFER - len - 1);
      RevSnoc(tail, c);
      ghost var done := buf[..len];
      buf[len] := c;
      len := len + 1;
      Shift(done, c, Rev(tail), buf[..len]);
      value := value / base;
      rest := tail;
      if value == 0 || len >= BUFFER {
        break;
      }
    }
    NoDigits(value, base, upper, BUFFER - len);
    assert buf[..len] + Rev([]) == buf[..len];
  }

  lemma Shift(done: seq<byte>, c: byte, tail: seq<byte>, next: seq<byte>)
    requires next == done + [c]
    ensures done + ([c] + tail) == next + tail
  {
  }

  lemma DigitsStep(value: nat, base: nat, upper: bool, n: nat)
    requires 2 <= base <= 16 && value > 0 && n > 0
    ensures 0 <= value % base < 16 && value / base >= 0
    ensures Digits(value, base, upper, n) == Digits(value / base, base, upper, n - 1) + [DigitChar(value % base, upper)]
  {
  }

  lemma NoDigits(value: nat, base: nat, upper: bool, n: nat)
    requires 2 <= base <= 16 && (value == 0 || n == 0)
    ensures Digits(value, base, upper, n) == []
  {
  }

  method PutSpaces(out: Gadget, n: nat)
    requires out.Valid()
    modifies out, out.buffer
    ensures out.Valid() && out.text == old(out.text) + Repeat(32, n)
  {
    var i := 0;
    hide Gadget.Valid;
    while i < n
      invariant out.Valid() && 0 <= i <= n && out.text == old(out.text) + Repeat(32, i)
    {
      out.Putchar(32);
      i := i + 1;
      assert Repeat(32, i) == Repeat(32, i - 1) + [32];
    }
  }

  method PutReversed(out: Gadget, buf: array<byte>, length: nat, ghost x: seq<byte>)
    requires out.Valid() && length <= buf.Length && buf != out.buffer && buf[..length] == Rev(x)
    modifies out, out.buffer
    ensures out.Valid() && out.text == old(out.text) + x
  {
    assert |x| == length;
    hide Gadget.Valid;
    var len := length;
    while len > 0
      invariant out.Valid() && 0 <= len <= length && buf[..length] == Rev(x)
      invariant out.text == old(out.text) + x[..length - len]
    {
      len := len - 1;
      assert buf[len] == Rev(x)[len] == x[length - 1 - len];
      out.Putchar(buf[len]);
      assert x[..length - len] == x[..length - 1 - len] + [x[length - 1 - len]];
    }
    assert x[..length] == x;
  }

  /** Pads, writes the text held in reverse, and pads again. */
  method OutRev(out: Gadget, buf: array<byte>, length: nat, width: nat, f: Flags, ghost x: seq<byte>)
    requires out.Valid() && length <= buf.Length && buf != out.buffer && buf[..length] == Rev(x)
    modifies out, out.buffer
    ensures out.Valid()
    ensures var pad := Spaces(length, width);
      out.text == old(out.text) + if f.left then x + pad else if f.zeroPad then x else pad + x
  {
    assert |x| == length && Repeat(32, 0) == [];
    hide Repeat, Rev;
    var start := out.pos;
    if !f.left && !f.zeroPad {
      PutSpaces(out, if length < width then width - length else 0);
    }
    PutReversed(out, buf, length, x);
    if f.left {
      PutSpaces(out, if out.pos - start < width then width - (out.pos - start) else 0);
    }
  }

  lemma DropZero(zeros: nat, x: seq<byte>)
    requires zeros > 0
    ensures Rev(Repeat(48, zeros) + x)[..|x| + zeros - 1] == Rev(Repeat(48, zeros - 1) + x)
  {
  }

  lemma InnerGrouped(l: Layout)
    ensures Inner(l) == l.sign + (l.prefix + (Repeat(48, l.zeros) + l.body))
  {
  }

  /** Makes room in the padding if need be, and writes the prefix. */
  method PrintPrefix(buf: array<byte>, padded: nat, length: nat, base: nat, precision: nat, width: nat, f: Flags,
                     ghost body: seq<byte>) returns (n: nat)
    requires buf.Length == BUFFER && |body| == length <= padded <= BUFFER
    requires buf[..padded] == Rev(Repeat(48, padded - length) + body)
    modifies buf
    ensures var t := TakenBack(length, padded, base, width, precision, f); var p := PrefixText(base, t, f);
      n == t + |p| && buf[..n] == Rev(p + (Repeat(48, t - length) + body))
  {
    hide Rev, Repeat, PrefixText;
    n := padded;
    if !f.precision && n > 0 && (n == precision || n == width) {
      if length < n {
        n := TakeBack(buf, n, length, body);
      }
      if n > 0 && (base == 16 || base == 2) && length < n {
        n := TakeBack(buf, n, length, body);
      }
    }
    n := WritePrefix(buf, n, base, f, Repeat(48, n - length) + body);
  }

  /** The letter of the prefix and its zero, each as far as the buffer goes. */
  method WritePrefix(buf: array<byte>, len: nat, base: nat, f: Flags, ghost x: seq<byte>) returns (n: nat)
    requires buf.Length == BUFFER && |x| == len <= BUFFER && buf[..len] == Rev(x)
    modifies buf
    ensures var p := PrefixText(base, len, f); n == len + |p| && buf[..n] == Rev(p + x)
  {
    hide Rev;
    n := len;
    ghost var letter: seq<byte> := [];
    if base == 16 && n < BUFFER {
      letter := [if f.upper then 88 else 120];
      n := Prepend(buf, n, if f.upper then 88 else 120, x);
    } else if base == 2 && n < BUFFER {
      letter := [98];
      n := Prepend(buf, n, 98, x);
    } else {
      assert letter + x == x;
    }
    if n < BUFFER {
      n := Prepend(buf, n, 48, letter + x);
      assert [48] + (letter + x) == [48] + letter + x;
    } else {
      assert [] + letter == letter;
    }
  }

  method TakeBack(buf: array<byte>, len: nat, length: nat, ghost body: seq<byte>) returns (n: nat)
    requires buf.Length == BUFFER && |body| == length < len <= BUFFER && buf[..len] == Rev(Repeat(48, len - length) + body)
    ensures n == len - 1 && buf[..n] == Rev(Repeat(48, n - length) + body)
  {
    n := len - 1;
    DropZero(len - length, body);
    assert buf[..n] == buf[..len][..n];
  }

  method PrintSign(buf: array<byte>, len: nat, negative: bool, f: Flags, ghost x: seq<byte>) returns (n: nat)
    requires buf.Length == BUFFER && len <= BUFFER && buf[..len] == Rev(x)
    modifies buf
    ensures n == len + |SignText(negative, len, f)| && buf[..n] == Rev(SignText(negative, len, f) + x)
  {
    hide Rev;
    n := len;
    assert [] + x == x;
    if len < BUFFER {
      if negative {
        n := Prepend(buf, len, 45, x);
      } else if f.plus {
        n := Prepend(buf, len, 43, x);
      } else if f.space {
        n := Prepend(buf, len, 32, x);
      }
    }
  }

  /** Leading zeros for the field width and for the precision. */
  method PadZeros(buf: array<byte>, length: nat, negative: bool, precision: nat, width: nat, f: Flags,
                  ghost body: seq<byte>) returns (len: nat, field: nat)
    requires buf.Length == BUFFER && |body| == length <= BUFFER && buf[..length] == Rev(body)
    modifies buf
    ensures field == FieldWidth(negative, width, f) && len == PaddedLength(length, field, precision, f)
    ensures buf[..len] == Rev(Repeat(48, len - length) + body)
  {
    hide Rev, Repeat;
    RepeatNone(body);
    len, field := length, width;
    if !f.left {
      if width > 0 && f.zeroPad && (negative || f.plus || f.space) {
        field := width - 1;
      }
      if f.zeroPad {
        len := FillZeros(buf, len, field, 0, body);
      }
    }
    len := FillZeros(buf, len, precision, len - length, body);
  }

  /** Adds the prefix, if there is to be one. */
  method AddPrefix(buf: array<byte>, padded: nat, length: nat, base: nat, precision: nat, field: nat, f: Flags,
                   prefixed: bool, ghost body: seq<byte>, ghost zeros: nat, ghost prefix: seq<byte>) returns (len: nat)
    requires buf.Length == BUFFER && |body| == length <= padded <= BUFFER
    requires buf[..padded] == Rev(Repeat(48, padded - length) + body)
    requires zeros + length == if prefixed then TakenBack(length, padded, base, field, precision, f) else padded
    requires prefix == if prefixed then PrefixText(base, zeros + length, f) else []
    modifies buf
    ensures len == |prefix + (Repeat(48, zeros) + body)| <= BUFFER && buf[..len] == Rev(prefix + (Repeat(48, zeros) + body))
  {
    hide Rev, Repeat, TakenBack, PrefixText;
    len := padded;
    if prefixed {
      len := PrintPrefix(buf, padded, length, base, precision, field, f, body);
    } else {
      assert prefix + (Repeat(48, zeros) + body) == Repeat(48, zeros) + body;
    }
  }

  /** Adds leading zeros, prefix and sign to the digits. */
  method BuildText(buf: array<byte>, length: nat, value: nat, negative: bool, base: nat, precision: nat, width: nat,
                   f: Flags, alternative: bool) returns (len: nat, field: nat)
    requires buf.Length == BUFFER && 2 <= base <= 16
    requires length <= BUFFER && buf[..length] == Rev(Body(value, base, f)) && alternative == Alternative(value, base, f)
    modifies buf
    ensures var l := LayoutOf(value, negative, base, precision, width, f);
      len <= BUFFER && len == |Inner(l)| && field == l.field && buf[..len] == Rev(Inner(l))
  {
    hide Rev, Repeat, Inner, Body, FieldWidth, PaddedLength, TakenBack, PrefixText, SignText, Alternative, LayoutOf;
    ghost var body := Body(value, base, f);
    ghost var l := LayoutOf(value, negative, base, precision, width, f);
    LayoutParts(value, negative, base, precision, width, f);
    InnerGrouped(l);
    len, field := PadZeros(buf, length, negative, precision, width, f, body);
    var hash := alternative;
    if base == 8 && len > length {
      hash := false;
    }
    var prefixed := hash || f.pointer;
    assert prefixed == HasPrefix(value, base, length, len, f);
    hide HasPrefix;
    len := AddPrefix(buf, len, length, base, precision, field, f, prefixed, body, l.zeros, l.prefix);
    len := PrintSign(buf, len, negative, f, l.prefix + (Repeat(48, l.zeros) + body));
  }

  lemma LayoutParts(value: nat, negative: bool, base: nat, precision: nat, width: nat, f: Flags)
    requires 2 <= base <= 16
    ensures var l := LayoutOf(value, negative, base, precision, width, f);
      var n, field := |Body(value, base, f)|, FieldWidth(negative, width, f);
      var padded := PaddedLength(n, field, precision, f);
      && l.body == Body(value, base, f) && l.field == field
      && l.zeros + n == (if HasPrefix(value, base, n, padded, f) then TakenBack(n, padded, base, field, precision, f) else padded)
      && l.prefix == (if HasPrefix(value, base, n, padded, f) then PrefixText(base, l.zeros + n, f) else [])
      && l.sign == SignText(negative, l.zeros + n + |l.prefix|, f)
  {
    hide Body, FieldWidth, PaddedLength, TakenBack, PrefixText, SignText, HasPrefix;
  }

  method PrintIntegerFinalization(out: Gadget, buf: array<byte>, length: nat, value: nat, negative: bool, base: nat,
                                  precision: nat, width: nat, f: Flags, alternative: bool)
    requires out.Valid() && buf.Length == BUFFER && buf != out.buffer && 2 <= base <= 16
    requires length <= BUFFER && buf[..length] == Rev(Body(value, base, f)) && alternative == Alternative(value, base, f)
    modifies out, out.buffer, buf
    ensures out.Valid()
    ensures out.text == old(out.text) + PrintText(LayoutOf(value, negative, base, precision, width, f), f)
  {
    hide Rev, Inner, Spaces, LayoutOf, Body, Alternative, Gadget.Valid;
    var len, field := BuildText(buf, length, value, negative, base, precision, width, f, alternative);
    OutRev(out, buf, len, field, f, Inner(LayoutOf(value, negative, base, precision, width, f)));
  }

  /** Prints the digits of a value with padding, prefix and sign as the flags ask. */
  method PrintInteger(out: Gadget, value: nat, negative: bool, base: nat, precision: nat, width: nat, f: Flags)
    requires out.Valid() && 2 <= base <= 16
    modifies out, out.buffer
    ensures out.Valid()
    ensures out.text == old(out.text) + PrintText(LayoutOf(value, negative, base, precision, width, f), f)
  {
    hide PrintText, LayoutOf, Digits;
    var buf := new byte[BUFFER](_ => 0);
    var len, hash := 0, f.hash;
    if value == 0 {
      if !f.precision {
        buf[0] := 48;
        len := 1;
        hash := false;
        assert buf[..1] == Rev([48]);
      } else {
        if base == 16 {
          hash := false;
        }
        NoDigits(value, base, f.upper, BUFFER);
        assert buf[..0] == Rev([]);
      }
    } else {
      len := FillDigits(buf, value, base, f.upper);
    }
    PrintIntegerFinalization(out, buf, len, value, negative, base, precision, width, f, hash);
  }
}
