/** `strstr` of the C library: word-at-a-time search for needles of two to four bytes and
    the two-way search, with a last-byte shift table, for longer ones. Pointers are indices;
    every read is inside the buffer, so no byte past a terminator is touched. */
module Strstr {
  import opened CriticalFactorization
  import opened CStrings
  import opened TwoWay

  /** An occurrence ends before the haystack's terminator. */
  lemma MatchEnds(h: seq<byte>, w: seq<byte>, s: nat)
    requires IsCString(h) && (forall i | 0 <= i < |w| :: w[i] != 0) && MatchAt(h, w, s) && |w| > 0
    ensures s + |w| < |h|
  {
    assert h[s + (|w| - 1)] == w[|w| - 1];
  }

  /** At the end of the haystack no window is left. */
  lemma NoRoom(h: seq<byte>, n: seq<byte>, from: nat, pos: nat)
    requires IsCString(h) && IsCString(n) && |n| > 1
    requires NoMatchBefore(h, Text(n), from, pos) && |h| <= pos + |n| - 1
    ensures FirstMatch(h, Text(n), from, Null)
  {
    forall s: nat | from <= s ensures !MatchAt(h, Text(n), s) {
      if MatchAt(h, Text(n), s) {
        MatchEnds(h, Text(n), s);
      }
    }
  }

  method Strchr(h: seq<byte>, c: byte) returns (r: Found)
    requires IsCString(h)
    ensures match r
            case At(i) => i < |h| && h[i] == c && forall j | 0 <= j < i :: h[j] != c
            case Null => c !in h
  {
    var i := 0;
    while h[i] != c && h[i] != 0
      invariant i < |h|
      invariant forall j | 0 <= j < i :: h[j] != c
      decreases |h| - i
    {
      i := i + 1;
    }
    return if h[i] == c then At(i) else Null;
  }

  /** Four bytes in one 32-bit word. */
  function Word(a: int, b: int, c: int, d: int): int {
    a * 0x100_0000 + b * 0x1_0000 + c * 0x100 + d
  }

  /** Shifting a byte in and dropping the overflow keeps the last four bytes. */
  lemma RollWord(a: byte, b: byte, c: byte, d: byte, e: byte)
    ensures (Word(a, b, c, d) * 0x100 + e) % 0x1_0000_0000 == Word(b, c, d, e)
  {
    var low := Word(b, c, d, e);
    assert 0 <= low < 0x1_0000_0000;
    Remainder(a, low);
  }

  lemma Remainder(q: int, r: int)
    requires 0 <= r < 0x1_0000_0000
    ensures (q * 0x1_0000_0000 + r) % 0x1_0000_0000 == r
  {
  }

  lemma EqualWords(a: byte, b: byte, c: byte, d: byte, a': byte, b': byte, c': byte, d': byte)
    ensures Word(a, b, c, d) == Word(a', b', c', d') <==> a == a' && b == b' && c == c' && d == d'
  {
    var x, x': int := a, a';
    EqualPairs(x, b, x', b');
    EqualPairs(x * 0x100 + b, c, x' * 0x100 + b', c');
    EqualPairs((x * 0x100 + b) * 0x100 + c, d, (x' * 0x100 + b') * 0x100 + c', d');
  }

  lemma EqualPairs(x: int, y: byte, x': int, y': byte)
    ensures x * 0x100 + y == x' * 0x100 + y' <==> x == x' && y == y'
  {
  }

  lemma AddByte(a: byte, b: byte, c: byte, d: byte)
    ensures Word(a, b, c, 0) + d == Word(a, b, c, d)
  {
  }

  method TwoByte(h: seq<byte>, from: nat, n: seq<byte>) returns (r: Found)
    requires IsCString(h) && from + 2 < |h|
    requires IsCString(n) && |n| == 3
    ensures FirstMatch(h, Text(n), from, r)
  {
    var nw, hw := Word(0, 0, n[0], n[1]), Word(0, 0, h[from], h[from + 1]);
    var i := from + 1;
    while h[i] != 0 && hw != nw
      invariant from < i < |h|
      invariant hw == Word(0, 0, h[i - 1], h[i])
      invariant NoMatchBefore(h, Text(n), from, i - 1)
      decreases |h| - i
    {
      EqualWords(0, 0, n[0], n[1], 0, 0, h[i - 1], h[i]);
      assert !MatchAt(h, Text(n), i - 1);
      i := i + 1;
      hw := (hw * 0x100 + h[i]) % 0x1_0000;
    }
    if h[i] != 0 {
      EqualWords(0, 0, n[0], n[1], 0, 0, h[i - 1], h[i]);
      return At(i - 1);
    }
    NoRoom(h, n, from, i - 1);
    return Null;
  }

  method ThreeByte(h: seq<byte>, from: nat, n: seq<byte>) returns (r: Found)
    requires IsCString(h) && from + 3 < |h|
    requires IsCString(n) && |n| == 4
    ensures FirstMatch(h, Text(n), from, r)
  {
    hide Word;
    var nw := Word(n[0], n[1], n[2], 0);
    var hw := Word(h[from], h[from + 1], h[from + 2], 0);
    var i := from + 2;
    while h[i] != 0 && hw != nw
      invariant from + 1 < i < |h|
      invariant hw == Word(h[i - 2], h[i - 1], h[i], 0)
      invariant NoMatchBefore(h, Text(n), from, i - 2)
      decreases |h| - i
    {
      EqualWords(n[0], n[1], n[2], 0, h[i - 2], h[i - 1], h[i], 0);
      assert !MatchAt(h, Text(n), i - 2);
      RollWord(h[i - 2], h[i - 1], h[i], h[i + 1], 0);
      AddByte(h[i - 2], h[i - 1], h[i], h[i + 1]);
      i := i + 1;
      hw := (hw + h[i]) * 0x100 % 0x1_0000_0000;
    }
    if h[i] != 0 {
      EqualWords(n[0], n[1], n[2], 0, h[i - 2], h[i - 1], h[i], 0);
      return At(i - 2);
    }
    NoRoom(h, n, from, i - 2);
    return Null;
  }

  method FourByte(h: seq<byte>, from: nat, n: seq<byte>) returns (r: Found)
    requires IsCString(h) && from + 4 < |h|
    requires IsCString(n) && |n| == 5
    ensures FirstMatch(h, Text(n), from, r)
  {
    hide Word;
    var nw := Word(n[0], n[1], n[2], n[3]);
    var hw := Word(h[from], h[from + 1], h[from + 2], h[from + 3]);
    var i := from + 3;
    while h[i] != 0 && hw != nw
      invariant from + 2 < i < |h|
      invariant hw == Word(h[i - 3], h[i - 2], h[i - 1], h[i])
      invariant NoMatchBefore(h, Text(n), from, i - 3)
      decreases |h| - i
    {
      EqualWords(n[0], n[1], n[2], n[3], h[i - 3], h[i - 2], h[i - 1], h[i]);
      assert !MatchAt(h, Text(n), i - 3);
      RollWord(h[i - 3], h[i - 2], h[i - 1], h[i], h[i + 1]);
      i := i + 1;
      hw := (hw * 0x100 + h[i]) % 0x1_0000_0000;
    }
    if h[i] != 0 {
      EqualWords(n[0], n[1], n[2], n[3], h[i - 3], h[i - 2], h[i - 1], h[i]);
      return At(i - 3);
    }
    NoRoom(h, n, from, i - 3);
    return Null;
  }

  /** The last-byte table: which bytes the needle has, and where each last occurs, plus one. */
  ghost predicate LastByteTable(w: seq<byte>, byteset: seq<bool>, shift: seq<nat>) {
    && |byteset| == |shift| == 256
    && (forall b: byte :: byteset[b] <==> b in w)
    && forall b: byte :: byteset[b] ==> 1 <= shift[b] <= |w| && w[shift[b] - 1] == b && b !in w[shift[b]..]
  }

  /** The first `len` bytes come again `p` bytes later. */
  ghost predicate Repeats(n: seq<byte>, p: nat, len: nat) {
    p + len < |n| && forall i, j | 0 <= i < len && j == i + p :: n[i] == n[j]
  }

  /** `memcmp(n, n + p, len)` is zero; the loop stops at the terminator at the latest. */
  method MemEqual(n: seq<byte>, p: nat, len: nat) returns (eq: bool)
    requires IsCString(n) && 1 <= p < |n| && len < |n|
    ensures eq <==> Repeats(n, p, len)
  {
    var x := 0;
    while x < len && n[x] == n[p + x]
      invariant x <= len && p + x < |n|
      invariant forall i, j | 0 <= i < x && j == i + p :: n[i] == n[j]
    {
      x := x + 1;
    }
    return x == len;
  }

  /** `memchr(z, 0, count)`. */
  method MemChrZero(h: seq<byte>, z: nat, count: nat) returns (r: Found)
    requires IsCString(h) && z < |h|
    ensures r == if z + count < |h| then Null else At(|h| - 1)
  {
    var i, left := z, count;
    while left > 0 && h[i] != 0
      invariant z <= i < |h| && i - z + left == count
      invariant forall j | z <= j < i :: h[j] != 0
    {
      i, left := i + 1, left - 1;
    }
    return if left > 0 then At(i) else Null;
  }

  /** Measures the needle, stopping early at the end of the haystack, and fills the table. */
  method FillTable(h: seq<byte>, from: nat, n: seq<byte>)
    returns (l: nat, byteset: array<bool>, shift: array<nat>)
    requires IsCString(h) && from < |h| && IsCString(n)
    ensures l < |n| && from + l < |h|
    ensures n[l] == 0 ==> LastByteTable(Text(n), byteset[..], shift[..])
    ensures n[l] != 0 ==> h[from + l] == 0
  {
    byteset := new bool[256](_ => false);
    shift := new nat[256](_ => 0);
    l := 0;
    while n[l] != 0 && h[from + l] != 0
      invariant l < |n| && from + l < |h|
      invariant byteset.Length == shift.Length == 256
      invariant forall b: byte :: byteset[b] <==> b in n[..l]
      invariant forall b: byte :: byteset[b] ==> 1 <= shift[b] <= l && n[shift[b] - 1] == b && b !in n[shift[b]..l]
      decreases |n| - l
    {
      byteset[n[l]] := true;
      shift[n[l]] := l + 1;
      l := l + 1;
    }
    if n[l] == 0 {
      assert n[..l] == Text(n);
      forall b: byte | byteset[..][b] ensures b !in Text(n)[shift[..][b]..] {
        assert Text(n)[shift[b]..] == n[shift[b]..l];
      }
    }
  }

  /** Critical factorization of the needle, the shift for a left mismatch, and how much of
      a match that shift preserves. In size_t arithmetic `ms` is -1 only for a needle whose
      `memcmp` compares nothing, so the maximum below never sees the wrapped value. */
  method Factorize(n: seq<byte>) returns (ms: int, p: nat, mem0: nat)
    requires IsCString(n) && |n| > 1
    ensures Factorized(n, ms, p, mem0)
  {
    hide IsMaximalSuffix, Critical, SafeShift, Repeats;
    var l, w := |n| - 1, Text(n);
    var p0: nat;
    ms, p0 := MaximalSuffix(w, false);
    var ip: int;
    ip, p := MaximalSuffix(w, true);
    ghost var rev, c' := true, ms + 1;
    if ip + 1 > ms + 1 {
      ms := ip;
    } else {
      p, rev, c' := p0, false, ip + 1;
    }
    CriticalPosition(w, rev, ms + 1, c');
    var eq := MemEqual(n, p, ms + 1);
    if !eq {
      PeriodSplit(n, ms + 1, p);
      LongShift(w, rev, ms + 1, c', p);
      mem0 := 0;
      p := (if ms > l - ms - 1 then ms else l - ms - 1) + 1;
    } else {
      PeriodSplit(n, ms + 1, p);
      ShortShift(w, ms + 1, p);
      mem0 := l - p;
    }
  }

  /** The needle repeats with its right part's period exactly when `memcmp` says so. */
  lemma PeriodSplit(n: seq<byte>, c: nat, p: nat)
    requires IsCString(n) && |n| > 1 && IsLeastPeriod(Text(n), c, p)
    ensures Period(Text(n), 0, |n| - 1, p) <==> Repeats(n, p, c)
  {
    var w := Text(n);
    assert forall i | 0 <= i < |w| :: w[i] == n[i];
    if Repeats(n, p, c) {
      forall i, j | 0 <= i < j < |w| && j - i == p ensures w[i] == w[j] {
        if i < c {
          assert n[i] == n[j];
        }
      }
    }
  }

  /** First letter, from `ms + 1` on, at which the window differs from the needle. */
  method CompareRight(h: seq<byte>, pos: nat, n: seq<byte>, ms: int, p: nat, mem: nat) returns (k: nat)
    requires IsCString(n) && -1 <= ms < |n| - 1 && pos + |n| <= |h|
    requires Remembered(h, Text(n), pos, p, mem)
    ensures ms + 1 <= k < |n| && Agree(h, Text(n), pos, ms + 1, k)
    ensures n[k] != 0 ==> h[pos + k] != n[k]
  {
    k := if ms + 1 > mem then ms + 1 else mem;
    while n[k] != 0 && n[k] == h[pos + k]
      invariant ms + 1 <= k < |n| && Agree(h, Text(n), pos, ms + 1, k)
      decreases |n| - k
    {
      k := k + 1;
    }
  }

  /** Walks left from `ms + 1` to the remembered prefix, stopping after a differing letter. */
  method CompareLeft(h: seq<byte>, pos: nat, n: seq<byte>, ms: int, mem: nat) returns (k: nat)
    requires IsCString(n) && -1 <= ms < |n| - 1 && pos + |n| <= |h|
    ensures k <= ms + 1 && (k > mem ==> h[pos + k - 1] != n[k - 1])
    ensures k <= mem ==> Agree(h, Text(n), pos, mem, ms + 1)
  {
    k := ms + 1;
    while k > mem && n[k - 1] == h[pos + k - 1]
      invariant k <= ms + 1 && Agree(h, Text(n), pos, k, ms + 1)
    {
      k := k - 1;
    }
  }

  /** What the search knows about the needle. */
  ghost predicate Factorized(n: seq<byte>, ms: int, p: nat, mem0: nat) {
    && IsCString(n) && |n| > 1
    && -1 <= ms && Critical(Text(n), ms + 1) && SafeShift(Text(n), ms + 1, p)
    && 1 <= p < |n| && (mem0 == 0 || (mem0 == |n| - 1 - p && Period(Text(n), 0, |n| - 1, p)))
  }

  /** One window of the search: either the needle is here, or the window moves on by `step`
      without skipping an occurrence, remembering a prefix that truly matches. */
  method TryWindow(h: seq<byte>, pos: nat, n: seq<byte>, byteset: array<bool>, shift: array<nat>,
                   ms: int, p: nat, mem0: nat, mem: nat)
    returns (found: bool, step: nat, mem': nat)
    requires Factorized(n, ms, p, mem0) && LastByteTable(Text(n), byteset[..], shift[..])
    requires pos + |n| <= |h| && Remembered(h, Text(n), pos, p, mem)
    ensures found ==> MatchAt(h, Text(n), pos)
    ensures !found ==> 1 <= step < |n| && NoMatchBefore(h, Text(n), pos, pos + step)
    ensures !found ==> Remembered(h, Text(n), pos + step, p, mem')
  {
    var l := |n| - 1;
    var last := h[pos + l - 1];
    assert byteset[..][last] == byteset[last] && shift[..][last] == shift[last];
    if byteset[last] {
      var k := l - shift[last];
      if k > 0 {
        SkipByTable(h, Text(n), pos, p, mem, shift[last]);
        if k < mem {
          k := mem;
        }
        return false, k, 0;
      }
    } else {
      SkipByTable(h, Text(n), pos, p, mem, 0);
      return false, l, 0;
    }
    found, step, mem' := CompareWindow(h, pos, n, ms, p, mem0, mem);
  }

  lemma SkipByTable(h: seq<byte>, w: seq<byte>, pos: nat, p: nat, mem: nat, last: nat)
    requires |w| > 0 && pos + |w| <= |h| && Remembered(h, w, pos, p, mem) && last < |w|
    requires h[pos + |w| - 1] !in w[last..]
    ensures NoMatchBefore(h, w, pos, pos + if |w| - last < mem then mem else |w| - last)
    ensures mem < |w|
  {
    forall i | last <= i < |w| ensures w[i] != h[pos + |w| - 1] {
      assert w[i] == w[last..][i - last];
    }
    ShiftTableSkip(h, w, pos, p, mem, last);
  }

  /** The comparison of a window whose last byte is right: right part first, then the left. */
  method CompareWindow(h: seq<byte>, pos: nat, n: seq<byte>, ms: int, p: nat, mem0: nat, mem: nat)
    returns (found: bool, step: nat, mem': nat)
    requires Factorized(n, ms, p, mem0) && pos + |n| <= |h| && Remembered(h, Text(n), pos, p, mem)
    ensures found ==> MatchAt(h, Text(n), pos)
    ensures !found ==> 1 <= step < |n| && NoMatchBefore(h, Text(n), pos, pos + step)
    ensures !found ==> Remembered(h, Text(n), pos + step, p, mem')
  {
    ghost var w := Text(n);
    var k := CompareRight(h, pos, n, ms, p, mem);
    if n[k] != 0 {
      RightMismatch(h, w, ms + 1, pos, k);
      return false, k - ms, 0;
    }
    assert k == |w|;
    k := CompareLeft(h, pos, n, ms, mem);
    if k <= mem {
      assert MatchAt(h, w, pos);
      return true, 0, 0;
    }
    LeftMismatch(h, w, ms + 1, pos, k - 1, p);
    if mem0 > 0 {
      RememberPrefix(h, w, ms + 1, pos, p);
    }
    return false, p, mem0;
  }

  /** The search loop, with its incremental search for the end of the haystack. */
  method Search(h: seq<byte>, from: nat, n: seq<byte>, byteset: array<bool>, shift: array<nat>,
                ms: int, p: nat, mem0: nat)
    returns (r: Found)
    requires IsCString(h) && from < |h| && Factorized(n, ms, p, mem0)
    requires LastByteTable(Text(n), byteset[..], shift[..])
    ensures FirstMatch(h, Text(n), from, r)
  {
    var l := |n| - 1;
    var pos, z, mem := from, from, 0;
    while true
      invariant from <= pos <= z < |h|
      invariant NoMatchBefore(h, Text(n), from, pos)
      invariant Remembered(h, Text(n), pos, p, mem)
      decreases |h| - pos
    {
      if z - pos < l {
        var grow := l / 64 * 64 + 63;
        var z2 := MemChrZero(h, z, grow);
        if z2.At? {
          z := z2.pos;
          if z - pos < l {
            NoRoom(h, n, from, pos);
            return Null;
          }
        } else {
          z := z + grow;
        }
      }
      var found, step, mem' := TryWindow(h, pos, n, byteset, shift, ms, p, mem0, mem);
      if found {
        return At(pos);
      }
      pos, mem := pos + step, mem';
    }
  }

  method TwoWayStrstr(h: seq<byte>, from: nat, n: seq<byte>) returns (r: Found)
    requires IsCString(h) && from < |h| && IsCString(n) && |n| > 1
    ensures FirstMatch(h, Text(n), from, r)
  {
    var l, byteset, shift := FillTable(h, from, n);
    if n[l] != 0 {
      NoRoom(h, n, from, from);
      return Null;
    }
    var ms, p, mem0 := Factorize(n);
    r := Search(h, from, n, byteset, shift, ms, p, mem0);
  }

  /** The first occurrence of the needle in the haystack, or null; section 7.24.5.7 of
      ISO/IEC 9899:2011. */
  method Strstr(h: seq<byte>, n: seq<byte>) returns (r: Found)
    requires IsCString(h) && IsCString(n)
    ensures FirstMatch(h, Text(n), 0, r)
  {
    if n[0] == 0 {
      return At(0);
    }
    var c := Strchr(h, n[0]);
    StartsWithFirstByte(h, n, c);
    if c.Null? || n[1] == 0 {
      return c;
    }
    var from := c.pos;
    if h[from + 1] == 0 {
      NoRoom(h, n, 0, from);
      return Null;
    }
    if n[2] == 0 {
      r := TwoByte(h, from, n);
    } else if h[from + 2] == 0 {
      NoRoom(h, n, 0, from);
      return Null;
    } else if n[3] == 0 {
      r := ThreeByte(h, from, n);
    } else if h[from + 3] == 0 {
      NoRoom(h, n, 0, from);
      return Null;
    } else if n[4] == 0 {
      r := FourByte(h, from, n);
    } else {
      r := TwoWayStrstr(h, from, n);
    }
  }

  /** No occurrence begins before the first copy of the needle's first byte. */
  lemma StartsWithFirstByte(h: seq<byte>, n: seq<byte>, c: Found)
    requires IsCString(h) && IsCString(n) && n[0] != 0
    requires match c
             case At(i) => i < |h| && h[i] == n[0] && forall j | 0 <= j < i :: h[j] != n[0]
             case Null => n[0] !in h
    ensures c.At? ==> NoMatchBefore(h, Text(n), 0, c.pos)
    ensures c.Null? ==> FirstMatch(h, Text(n), 0, Null)
  {
    var w := Text(n);
    forall s: nat | MatchAt(h, w, s) ensures s < |h| && h[s] == n[0] {
      assert w[0] == h[s + 0];
    }
  }
}
