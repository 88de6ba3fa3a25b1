/** Combinatorics on words behind the two-way string search: maximal suffixes under an
    order and under its opposite, periods, and the critical factorization theorem. */
module CriticalFactorization {

  /** The byte order, or its opposite when `rev`. */
  predicate Less(rev: bool, x: int, y: int) {
    if rev then y < x else x < y
  }

  /** The `len` letters from `s` and from `a` are the same letters. */
  ghost predicate Same(n: seq<int>, s: nat, a: nat, len: nat) {
    && s + len <= |n| && a + len <= |n|
    && forall i, j | s <= i < s + len && j - i == a - s :: n[i] == n[j]
  }

  /** The stretch `n[a..m]` repeats every `p` letters. */
  ghost predicate Period(n: seq<int>, a: nat, m: nat, p: nat) {
    && m <= |n|
    && forall i, j | a <= i < j < m && j - i == p :: n[i] == n[j]
  }

  /** Suffixes `s` and `a` agree on `t` letters, and then the letter of `s` is the smaller. */
  ghost predicate MismatchAt(n: seq<int>, rev: bool, s: nat, a: nat, t: nat) {
    s + t < |n| && a + t < |n| && Same(n, s, a, t) && Less(rev, n[s + t], n[a + t])
  }

  ghost predicate Below(n: seq<int>, rev: bool, s: nat, a: nat) {
    exists t: nat :: MismatchAt(n, rev, s, a, t)
  }

  /** The suffix at `s` is a prefix of the suffix at `a`. */
  ghost predicate Border(n: seq<int>, s: nat, a: nat) {
    a < s <= |n| && Same(n, s, a, |n| - s)
  }

  /** `n[a..]` is the greatest suffix of `n`; a proper prefix counts as smaller. */
  ghost predicate IsMaximalSuffix(n: seq<int>, rev: bool, a: nat) {
    a < |n| && forall s: nat | s < |n| && s != a :: Below(n, rev, s, a) || Border(n, s, a)
  }

  /** `p` is the least period of the suffix at `a`. */
  ghost predicate IsLeastPeriod(n: seq<int>, a: nat, p: nat) {
    && a < |n| && 1 <= p <= |n| - a && Period(n, a, |n|, p)
    && forall r: nat | 1 <= r < p :: !Period(n, a, |n|, r)
  }

  /** A square of half-length `r` centred at `c`, which may overflow `n` at either end. */
  ghost predicate LocalRepetition(n: seq<int>, c: nat, r: nat) {
    forall i, j | 0 <= i < c <= i + r && j == i + r && j < |n| :: n[i] == n[j]
  }

  lemma Asymmetric(n: seq<int>, rev: bool, s: nat, a: nat, t: nat, t': nat)
    requires MismatchAt(n, rev, s, a, t)
    ensures !MismatchAt(n, rev, a, s, t')
  {
  }

  /** A suffix that is a maximal suffix is not beaten, at any position of the comparison. */
  lemma NotBeaten(n: seq<int>, rev: bool, a: nat, s: nat, t: nat)
    requires IsMaximalSuffix(n, rev, a) && s < |n| && s != a
    ensures !MismatchAt(n, rev, a, s, t)
  {
    if Below(n, rev, s, a) {
      var t' :| MismatchAt(n, rev, s, a, t');
      Asymmetric(n, rev, s, a, t', t);
    }
  }

  /** No square whose left half fits is centred at a maximal suffix. */
  lemma NoShortRepetition(n: seq<int>, rev: bool, c: nat, r: nat)
    requires IsMaximalSuffix(n, rev, c) && 1 <= r && LocalRepetition(n, c, r)
    ensures r > c
  {
    if r <= c {
      var s := c - r;
      assert Below(n, rev, s, c);
      var t: nat :| MismatchAt(n, rev, s, c, t);
      if r <= t {
        // cancel the common first r letters
        var s2 := c + r;
        forall i, j | c <= i < c + (t - r) && j - i == s2 - c ensures n[i] == n[j] {}
        assert MismatchAt(n, rev, c, s2, t - r);
        NotBeaten(n, rev, c, s2, t - r);
      }
    }
  }

  /** Critical factorization: at the shorter of the two maximal suffixes every local
      repetition is a period of the whole word, and is longer than the part before it. */
  lemma RepetitionIsPeriod(n: seq<int>, rev: bool, c: nat, c': nat, r: nat)
    requires IsMaximalSuffix(n, rev, c) && IsMaximalSuffix(n, !rev, c') && c' <= c
    requires 1 <= r && LocalRepetition(n, c, r)
    ensures r > c && Period(n, 0, |n|, r)
  {
    NoShortRepetition(n, rev, c, r);
    hide Period, LocalRepetition, MismatchAt, Border, IsMaximalSuffix;
    if r >= |n| - c {
      LongRepetition(n, c, r);
    } else {
      var s := c + r;
      if Below(n, rev, s, c) {
        var t: nat :| MismatchAt(n, rev, s, c, t);
        MismatchMoves(n, rev, c, c', r, t);
        NotBeaten(n, !rev, c', c' + r, c - c' + t);
      } else {
        MaximalBorder(n, rev, c, s);
        BorderRepeats(n, c, r);
      }
    }
  }

  /** A repetition at `c` carries a mismatch of the suffix at `c` over to that at `c'`. */
  lemma MismatchMoves(n: seq<int>, rev: bool, c: nat, c': nat, r: nat, t: nat)
    requires c' <= c < r && r < |n| - c && LocalRepetition(n, c, r) && MismatchAt(n, rev, c + r, c, t)
    ensures MismatchAt(n, !rev, c', c' + r, c - c' + t)
  {
    forall i, j | c' <= i < c + t && j - i == r ensures n[i] == n[j] {}
  }

  /** A repetition that reaches past the end is a period as soon as it covers the left part. */
  lemma LongRepetition(n: seq<int>, c: nat, r: nat)
    requires c <= |n| && c < r && r >= |n| - c && LocalRepetition(n, c, r)
    ensures Period(n, 0, |n|, r)
  {
  }

  lemma MaximalBorder(n: seq<int>, rev: bool, c: nat, s: nat)
    requires IsMaximalSuffix(n, rev, c) && c < s < |n| && !Below(n, rev, s, c)
    ensures Border(n, s, c)
  {
  }

  lemma BorderRepeats(n: seq<int>, c: nat, r: nat)
    requires c < r && r < |n| - c && LocalRepetition(n, c, r) && Border(n, c + r, c)
    ensures Period(n, 0, |n|, r)
  {
    forall i, j | 0 <= i < j < |n| && j - i == r ensures n[i] == n[j] {}
  }

  /** When the word has a period that fits in the maximal suffix, that suffix's least
      period is a period of the whole word. */
  lemma LeastPeriodExtends(n: seq<int>, rev: bool, c: nat, c': nat, p: nat, s: nat)
    requires IsMaximalSuffix(n, rev, c) && IsMaximalSuffix(n, !rev, c') && c' <= c
    requires IsLeastPeriod(n, c, p)
    requires 1 <= s <= |n| - c && Period(n, 0, |n|, s)
    ensures Period(n, 0, |n|, p) && p <= s
  {
    var r := Reduce(n, c, p, s);
    RepetitionIsPeriod(n, rev, c, c', r);
    assert Period(n, c, |n|, r);
  }

  /** Subtracts `p` from the period `s` while the result is positive: what is left, at most
      `p`, is a local repetition. */
  lemma Reduce(n: seq<int>, c: nat, p: nat, s: nat) returns (r: nat)
    requires c < |n| && 1 <= p && Period(n, c, |n|, p)
    requires 1 <= s <= |n| - c && Period(n, 0, |n|, s)
    ensures 1 <= r <= p && r <= s && LocalRepetition(n, c, r)
  {
    r := s;
    while r > p
      invariant 1 <= r <= s
      invariant LocalRepetition(n, c, r)
    {
      var r' := r - p;
      forall i, j | 0 <= i < c <= i + r' && j == i + r' && j < |n| ensures n[i] == n[j] {
        assert n[i] == n[i + r];
        assert n[i + r'] == n[i + r];
      }
      r := r';
    }
  }
}
