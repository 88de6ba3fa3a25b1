/** The maximal-suffix scan of the two-way string search, and the facts that let the search
    skip windows: what strstr may conclude from a mismatch in either half of the needle. */
module TwoWay {
  import opened CriticalFactorization
  import opened CStrings

  ghost predicate MatchAt(h: seq<byte>, w: seq<byte>, pos: nat) {
    && pos + |w| <= |h|
    && forall i, j | 0 <= i < |w| && j == pos + i :: h[j] == w[i]
  }

  ghost predicate NoMatchBefore(h: seq<byte>, w: seq<byte>, lo: nat, hi: nat) {
    forall s: nat | lo <= s < hi :: !MatchAt(h, w, s)
  }

  datatype Found = At(pos: nat) | Null

  /** What `strstr` promises: the first occurrence at or after `from`, or null if there is none. */
  ghost predicate FirstMatch(h: seq<byte>, w: seq<byte>, from: nat, r: Found) {
    match r
    case At(pos) => from <= pos && MatchAt(h, w, pos) && NoMatchBefore(h, w, from, pos)
    case Null => forall s: nat | from <= s :: !MatchAt(h, w, s)
  }

  // ----- maximal suffix -----

  /** State of the maximal-suffix scan: `n[a..]` beats every earlier suffix and every one
      that starts inside its first period, the text read so far, `n[a..j + k]`, repeats with
      period `p`, and the last full period and the partial one after it are copies of the start. */
  ghost predicate Scan(n: seq<int>, rev: bool, a: nat, j: nat, k: nat, p: nat) {
    && 1 <= k <= p && a + p <= j + 1 && j + k <= |n|
    && (forall s: nat | s < a :: Below(n, rev, s, a))
    && (forall s: nat | a < s < a + p :: Below(n, rev, s, a))
    && Period(n, a, j + k, p)
    && Same(n, a, j + 1, k - 1)
    && Same(n, a, j + 1 - p, p)
  }

  lemma ScanStart(n: seq<int>, rev: bool)
    requires |n| > 0
    ensures Scan(n, rev, 0, 0, 1, 1)
  {
  }

  lemma ScanEqual(n: seq<int>, rev: bool, a: nat, j: nat, k: nat, p: nat)
    requires Scan(n, rev, a, j, k, p) && j + k < |n| && n[a + k - 1] == n[j + k]
    ensures k == p ==> Scan(n, rev, a, j + p, 1, p)
    ensures k < p ==> Scan(n, rev, a, j, k + 1, p)
  {
    assert n[j + k - p] == n[a + k - 1];
    assert Period(n, a, j + k + 1, p);
  }

  /** The letter read is smaller: the whole stretch becomes one period. */
  lemma ScanGreater(n: seq<int>, rev: bool, a: nat, j: nat, k: nat, p: nat)
    requires Scan(n, rev, a, j, k, p) && j + k < |n| && Less(rev, n[j + k], n[a + k - 1])
    ensures Scan(n, rev, a, j + k, 1, j + k + 1 - a)
  {
    var m := j + k;
    assert n[m - p] == n[a + k - 1];
    forall s: nat | a < s <= m ensures Below(n, rev, s, a) {
      InsideBelow(n, rev, a, m, p, s);
    }
  }

  /** Letters one period further on match whatever the letters here match. */
  lemma ShiftSame(n: seq<int>, a: nat, m: nat, p: nat, s: nat, b: nat, len: nat)
    requires Period(n, a, m, p) && 1 <= p && a <= s && s + p + len <= m && Same(n, s, b, len)
    ensures Same(n, s + p, b, len)
  {
    forall i, j | s + p <= i < s + p + len && j - i == b - (s + p) ensures n[i] == n[j] {
      assert n[i - p] == n[i];
      assert n[i - p] == n[j];
    }
  }

  lemma MoveMismatch(n: seq<int>, rev: bool, a: nat, m: nat, p: nat, s: nat, t: nat)
    requires 1 <= p && a <= s && s + p <= m < |n| && Period(n, a, m, p) && Less(rev, n[m], n[m - p])
    requires MismatchAt(n, rev, s, a, t)
    ensures Below(n, rev, s + p, a)
  {
    if s + p + t < m {
      ShiftSame(n, a, m, p, s, a, t);
      assert MismatchAt(n, rev, s + p, a, t);
    } else {
      var t' := m - p - s;
      ShiftSame(n, a, m, p, s, a, t');
      assert t' < t ==> n[s + t'] == n[a + t'];
      assert MismatchAt(n, rev, s + p, a, t');
    }
  }

  lemma InsideBelow(n: seq<int>, rev: bool, a: nat, m: nat, p: nat, s: nat)
    requires 1 <= p && a + p <= m < |n| && Period(n, a, m, p) && Less(rev, n[m], n[m - p])
    requires forall s: nat | a < s < a + p :: Below(n, rev, s, a)
    requires a < s <= m
    ensures Below(n, rev, s, a)
    decreases s
  {
    if a + p <= s {
      var s' := s - p;
      if s' == a {
        assert MismatchAt(n, rev, s, a, m - s);
      } else {
        InsideBelow(n, rev, a, m, p, s');
        var t: nat :| MismatchAt(n, rev, s', a, t);
        MoveMismatch(n, rev, a, m, p, s', t);
      }
    }
  }

  /** The letter read is greater: the scan restarts from the last full period. */
  lemma ScanLess(n: seq<int>, rev: bool, a: nat, j: nat, k: nat, p: nat)
    requires Scan(n, rev, a, j, k, p) && j + k < |n| && Less(rev, n[a + k - 1], n[j + k])
    ensures Scan(n, rev, j + 1, j + 1, 1, 1)
  {
    var b := j + 1;
    forall s: nat | s < b ensures Below(n, rev, s, b) {
      if s < a {
        var t := BeatenByNext(n, rev, s, a, b, k - 1);
      } else {
        var t := EarlierBeaten(n, rev, a, b, k - 1, p, s);
      }
    }
  }

  lemma BeatenByNext(n: seq<int>, rev: bool, s: nat, a: nat, b: nat, u: nat) returns (t: nat)
    requires Below(n, rev, s, a) && MismatchAt(n, rev, a, b, u) && s < b
    ensures t <= u && MismatchAt(n, rev, s, b, t)
  {
    var t0: nat :| MismatchAt(n, rev, s, a, t0);
    t := if t0 < u then t0 else u;
    forall i, j | s <= i < s + t && j - i == b - s ensures n[i] == n[j] {
      assert n[i] == n[i + a - s];
    }
    assert n[a + t] == n[b + t] || t == u;
    assert n[s + t] == n[a + t] || t == t0;
  }

  lemma EarlierBeaten(n: seq<int>, rev: bool, a: nat, b: nat, u: nat, p: nat, s: nat) returns (t: nat)
    requires 1 <= p && b + u < |n| && Period(n, a, b + u, p) && MismatchAt(n, rev, a, b, u)
    requires forall s: nat | a < s < a + p :: Below(n, rev, s, a)
    requires a <= s < b
    ensures t <= u && MismatchAt(n, rev, s, b, t)
    decreases s
  {
    if s == a {
      t := u;
    } else if s < a + p {
      t := BeatenByNext(n, rev, s, a, b, u);
    } else {
      t := EarlierBeaten(n, rev, a, b, u, p, s - p);
      ShiftSame(n, a, b + u, p, s - p, b, t);
      assert n[s - p + t] == n[s + t];
    }
  }

  lemma ScanDone(n: seq<int>, rev: bool, a: nat, j: nat, k: nat, p: nat)
    requires Scan(n, rev, a, j, k, p) && j + k == |n|
    ensures IsMaximalSuffix(n, rev, a) && IsLeastPeriod(n, a, p)
  {
    forall s: nat | s < |n| && s != a ensures Below(n, rev, s, a) || Border(n, s, a) {
      if a < s {
        LaterBelow(n, rev, a, p, s);
      }
    }
    forall r: nat | 1 <= r < p ensures !Period(n, a, |n|, r) {
      var s := a + r;
      assert Below(n, rev, s, a);
      var t: nat :| MismatchAt(n, rev, s, a, t);
      assert n[s + t] != n[a + t];
    }
  }

  lemma LaterBelow(n: seq<int>, rev: bool, a: nat, p: nat, s: nat)
    requires 1 <= p && Period(n, a, |n|, p)
    requires forall s: nat | a < s < a + p :: Below(n, rev, s, a)
    requires a < s < |n|
    ensures Below(n, rev, s, a) || Border(n, s, a)
    decreases s
  {
    if a + p <= s {
      var s' := s - p;
      if s' == a {
        assert Border(n, s, a);
      } else {
        LaterBelow(n, rev, a, p, s');
        if t: nat :| MismatchAt(n, rev, s', a, t) && s + t < |n| {
          ShiftSame(n, a, |n|, p, s', a, t);
          assert n[s' + t] == n[s + t];
          assert MismatchAt(n, rev, s, a, t);
        } else {
          ShiftSame(n, a, |n|, p, s', a, |n| - s);
          assert Border(n, s, a);
        }
      }
    }
  }

  /** One of the two maximal-suffix loops: the one for the byte order, or for its opposite. */
  method MaximalSuffix(n: seq<byte>, rev: bool) returns (ip: int, p: nat)
    requires |n| > 0
    ensures -1 <= ip && IsMaximalSuffix(n, rev, ip + 1) && IsLeastPeriod(n, ip + 1, p)
  {
    hide Scan;
    var l := |n|;
    ip := -1;
    p := 1;
    var jp, k := 0, 1;
    ScanStart(n, rev);
    while jp + k < l
      invariant -1 <= ip && 1 <= k <= p <= jp - ip && jp + k <= l
      invariant Scan(n, rev, ip + 1, jp, k, p)
      decreases 2 * l - ip - jp - k
    {
      if n[ip + k] == n[jp + k] {
        ScanEqual(n, rev, ip + 1, jp, k, p);
        if k == p {
          jp := jp + p;
          k := 1;
        } else {
          k := k + 1;
        }
      } else if Less(rev, n[jp + k], n[ip + k]) {
        ScanGreater(n, rev, ip + 1, jp, k, p);
        jp := jp + k;
        k := 1;
        p := jp - ip;
      } else {
        ScanLess(n, rev, ip + 1, jp, k, p);
        ip := jp;
        jp := jp + 1;
        k := 1;
        p := 1;
      }
    }
    ScanDone(n, rev, ip + 1, jp, k, p);
  }

  // ----- why the search may skip -----

  /** Every local repetition at `c` is a period of the needle longer than `c`. */
  ghost predicate Critical(w: seq<byte>, c: nat) {
    && c < |w|
    && forall r: nat | 1 <= r && LocalRepetition(w, c, r) :: r > c && Period(w, 0, |w|, r)
  }

  lemma CriticalPosition(w: seq<byte>, rev: bool, c: nat, c': nat)
    requires IsMaximalSuffix(w, rev, c) && IsMaximalSuffix(w, !rev, c') && c' <= c
    ensures Critical(w, c)
  {
    forall r: nat | 1 <= r && LocalRepetition(w, c, r) ensures r > c && Period(w, 0, |w|, r) {
      RepetitionIsPeriod(w, rev, c, c', r);
    }
  }

  /** The needle's letters `lo..hi` are the haystack's letters at window `pos`. */
  ghost predicate Agree(h: seq<byte>, w: seq<byte>, pos: nat, lo: nat, hi: nat) {
    && hi <= |w| && pos + hi <= |h|
    && forall i, j | lo <= i < hi && j == pos + i :: h[j] == w[i]
  }

  /** No period of the needle that an occurrence could use is smaller than the shift `p`. */
  ghost predicate SafeShift(w: seq<byte>, c: nat, p: nat) {
    forall r: nat | c < r < p :: !Period(w, 0, |w|, r)
  }

  /** The remembered prefix: nothing, or the needle's periodic prefix, which is truly matched. */
  ghost predicate Remembered(h: seq<byte>, w: seq<byte>, pos: nat, p: nat, mem: nat) {
    mem == 0 || (1 <= p && mem == |w| - p && Period(w, 0, |w|, p) && Agree(h, w, pos, 0, mem))
  }

  /** A second occurrence that overlaps the matched right part repeats the needle at `c`. */
  lemma OverlapRepeats(h: seq<byte>, w: seq<byte>, c: nat, pos: nat, k: nat, s: nat)
    requires c <= k <= |w| && Agree(h, w, pos, c, k)
    requires 1 <= s && MatchAt(h, w, pos + s) && (s <= k - c || k == |w|)
    ensures LocalRepetition(w, c, s)
  {
    forall i, j | 0 <= i < c <= i + s && j == i + s && j < |w| ensures w[i] == w[j] {
      assert h[pos + j] == w[j];
      assert h[pos + s + i] == w[i];
    }
  }

  lemma RightMismatch(h: seq<byte>, w: seq<byte>, c: nat, pos: nat, k: nat)
    requires Critical(w, c) && c <= k < |w| && pos + k < |h|
    requires Agree(h, w, pos, c, k) && h[pos + k] != w[k]
    ensures NoMatchBefore(h, w, pos, pos + k - c + 1)
  {
    forall s': nat | pos <= s' < pos + k - c + 1 ensures !MatchAt(h, w, s') {
      var s := s' - pos;
      if MatchAt(h, w, s') {
        assert s' + (k - s) == pos + k;
        assert h[pos + k] == w[k - s];
        if s > 0 {
          OverlapRepeats(h, w, c, pos, k, s);
        }
      }
    }
  }

  lemma LeftMismatch(h: seq<byte>, w: seq<byte>, c: nat, pos: nat, k: nat, p: nat)
    requires Critical(w, c) && k < c && Agree(h, w, pos, c, |w|) && h[pos + k] != w[k]
    requires SafeShift(w, c, p)
    ensures NoMatchBefore(h, w, pos, pos + p)
  {
    forall s': nat | pos <= s' < pos + p ensures !MatchAt(h, w, s') {
      var s := s' - pos;
      if MatchAt(h, w, s') && s > 0 {
        OverlapRepeats(h, w, c, pos, |w|, s);
      }
    }
  }

  /** After a periodic shift the needle's prefix is already known to match. */
  lemma RememberPrefix(h: seq<byte>, w: seq<byte>, c: nat, pos: nat, p: nat)
    requires Critical(w, c) && Agree(h, w, pos, c, |w|) && 1 <= p <= |w| && Period(w, 0, |w|, p)
    ensures Remembered(h, w, pos + p, p, |w| - p)
  {
    assert LocalRepetition(w, c, p);
    forall i, j | 0 <= i < |w| - p && j == pos + p + i ensures h[j] == w[i] {
      assert w[i] == w[i + p];
      assert h[pos + (i + p)] == w[i + p];
    }
  }

  lemma WindowLast(h: seq<byte>, w: seq<byte>, pos: nat, s: nat)
    requires s < |w| && MatchAt(h, w, pos + s)
    ensures h[pos + |w| - 1] == w[|w| - 1 - s]
  {
  }

  lemma LastLetterRepeats(h: seq<byte>, w: seq<byte>, pos: nat, p: nat, mem: nat, s: nat)
    requires Remembered(h, w, pos, p, mem) && s < mem && MatchAt(h, w, pos + s)
    ensures w[|w| - 1 - s] == w[|w| - 1]
  {
    assert w[mem - 1 - s] == w[|w| - 1 - s];
    assert w[mem - 1] == w[|w| - 1];
    assert h[pos + (mem - 1)] == w[mem - 1];
  }

  /** The last byte of the window last occurs in the needle at index `last - 1`: no
      occurrence begins before the window moves that byte there, nor inside the remembered prefix. */
  lemma ShiftTableSkip(h: seq<byte>, w: seq<byte>, pos: nat, p: nat, mem: nat, last: nat)
    requires |w| > 0 && pos + |w| <= |h| && Remembered(h, w, pos, p, mem) && last < |w|
    requires forall i | last <= i < |w| :: w[i] != h[pos + |w| - 1]
    ensures NoMatchBefore(h, w, pos, pos + if |w| - last < mem then mem else |w| - last)
  {
    forall s': nat | pos <= s' < pos + (if |w| - last < mem then mem else |w| - last)
      ensures !MatchAt(h, w, s')
    {
      var s := s' - pos;
      if MatchAt(h, w, s') {
        if s < mem {
          LastLetterRepeats(h, w, pos, p, mem, s);
        }
        WindowLast(h, w, pos, s);
      }
    }
  }

  /** The shift of a needle that is not periodic. */
  lemma LongShift(w: seq<byte>, rev: bool, c: nat, c': nat, p: nat)
    requires IsMaximalSuffix(w, rev, c) && IsMaximalSuffix(w, !rev, c') && c' <= c
    requires IsLeastPeriod(w, c, p) && !Period(w, 0, |w|, p)
    ensures 0 < c && SafeShift(w, c, (if c - 1 > |w| - c then c - 1 else |w| - c) + 1)
  {
    forall r: nat | c < r <= |w| - c ensures !Period(w, 0, |w|, r) {
      if Period(w, 0, |w|, r) {
        LeastPeriodExtends(w, rev, c, c', p, r);
      }
    }
  }

  lemma ShortShift(w: seq<byte>, c: nat, p: nat)
    requires IsLeastPeriod(w, c, p)
    ensures SafeShift(w, c, p)
  {
    forall r: nat | c < r < p ensures !Period(w, 0, |w|, r) {
      if Period(w, 0, |w|, r) {
        assert Period(w, c, |w|, r);
      }
    }
  }
}
