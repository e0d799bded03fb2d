/** The bit comparison of ircd/cidr_lookups.c as the code does it, sixteen bits
    at a time, proved to be the bit-by-bit comparison the tree is built on.
    Words are numbers, so that shifting is doubling. */
module CidrWords {
  import opened CidrTree

  type Word = w: nat | w < 0x10000

  /** Eight words in host order, as ntohs gives them. */
  type Words = w: seq<Word> | |w| == 8 witness [0, 0, 0, 0, 0, 0, 0, 0]

  /** w << 1 */
  function Shl(w: Word): Word { if w < 0x8000 then 2 * w else 2 * w - 0x10000 }

  /** Bit k of w, counted from the top. */
  predicate Bit(w: Word, k: nat)
    decreases k
  {
    if k == 0 then w >= 0x8000 else Bit(Shl(w), k - 1)
  }

  function Pow2(n: nat): nat { if n == 0 then 1 else 2 * Pow2(n - 1) }

  /** x and y have their first n bits in common. */
  ghost predicate SameBits(x: Word, y: Word, n: nat) {
    forall k :: 0 <= k < n ==> Bit(x, k) == Bit(y, k)
  }

  /** The first of the m top bits in which x and y differ, or m: the leading
      zeros of x ^ y under the mask of m bits. */
  function Parting(x: Word, y: Word, m: nat): (n: nat)
    ensures n <= m
    decreases m
  {
    if m == 0 || (x < 0x8000) != (y < 0x8000) then 0 else 1 + Parting(Shl(x), Shl(y), m - 1)
  }

  lemma {:induction false} PartingIs(x: Word, y: Word, m: nat)
    ensures var n := Parting(x, y, m); SameBits(x, y, n) && (n < m ==> Bit(x, n) != Bit(y, n))
    decreases m
  {
    if m != 0 && (x < 0x8000) == (y < 0x8000) {
      PartingIs(Shl(x), Shl(y), m - 1);
      var n := Parting(Shl(x), Shl(y), m - 1);
      forall k | 0 <= k < n + 1 ensures Bit(x, k) == Bit(y, k) {
        if k > 0 { assert Bit(Shl(x), k - 1) == Bit(Shl(y), k - 1); }
      }
    }
  }

  /** Unequal words part somewhere: their distance doubles while they agree. */
  lemma {:induction false} UnequalPart(x: Word, y: Word, m: nat)
    requires (if x < y then y - x else x - y) * Pow2(m) >= 0x10000
    ensures Parting(x, y, m) < m
    decreases m
  {
    var d := if x < y then y - x else x - y;
    if m != 0 && (x < 0x8000) == (y < 0x8000) {
      assert (if Shl(x) < Shl(y) then Shl(y) - Shl(x) else Shl(x) - Shl(y)) == 2 * d;
      assert d * Pow2(m) == (2 * d) * Pow2(m - 1);
      UnequalPart(Shl(x), Shl(y), m - 1);
    }
  }

  lemma Sixteen()
    ensures Pow2(16) == 0x10000
  {
    assert Pow2(4) == 16;
    assert Pow2(8) == 16 * Pow2(4);
    assert Pow2(12) == 16 * Pow2(8);
    assert Pow2(16) == 16 * Pow2(12);
  }

  /** `a` is the address the words spell. */
  ghost predicate Spells(w: Words, a: Addr) {
    forall i :: 0 <= i < 128 ==> a[i] == Bit(w[i / 16], i % 16)
  }

  lemma SameWord(x: Words, y: Words, a: Addr, b: Addr, w: nat, n: nat)
    requires Spells(x, a) && Spells(y, b) && w < 8 && n <= 16 && SameBits(x[w], y[w], n)
    ensures forall i :: 16 * w <= i < 16 * w + n ==> a[i] == b[i]
  {
    forall i | 16 * w <= i < 16 * w + n ensures a[i] == b[i] {
      assert i / 16 == w && i % 16 == i - 16 * w;
    }
  }

  /** What Parting says of one word, said of the address. */
  lemma InWord(x: Words, y: Words, a: Addr, b: Addr, w: nat, m: nat)
    requires Spells(x, a) && Spells(y, b) && w < 8 && m <= 16
    ensures DiffFrom(a, b, 16 * w, 16 * w + m) == 16 * w + Parting(x[w], y[w], m)
  {
    var n := Parting(x[w], y[w], m);
    PartingIs(x[w], y[w], m);
    SameWord(x, y, a, b, w, n);
    if n < m { assert (16 * w + n) / 16 == w && (16 * w + n) % 16 == n; }
    DiffFromOnly(a, b, 16 * w, 16 * w + m, 16 * w + n);
  }

  lemma {:induction false} EqualNeverPart(x: Word, m: nat)
    ensures Parting(x, x, m) == m
    decreases m
  {
    if m > 0 { EqualNeverPart(Shl(x), m - 1); }
  }

  ghost predicate Matching(a: Addr, b: Addr, lo: nat, hi: nat) {
    forall k :: lo <= k < hi && k < 128 ==> a[k] == b[k]
  }

  /** The first whole word that differs decides. */
  lemma WholeWord(x: Words, y: Words, a: Addr, b: Addr, lo: nat, hi: nat, w: nat)
    requires Spells(x, a) && Spells(y, b) && lo < 128 && hi <= 128 && lo / 16 <= w < hi / 16
    requires Matching(a, b, lo - lo % 16, 16 * w)
    ensures x[w] != y[w] ==> BitDiff(a, b, lo, hi) == 16 * w + Parting(x[w], y[w], 16)
    ensures x[w] == y[w] ==> Matching(a, b, lo - lo % 16, 16 * w + 16)
  {
    InWord(x, y, a, b, w, 16);
    if x[w] != y[w] {
      Sixteen();
      UnequalPart(x[w], y[w], 16);
      DiffFromOnly(a, b, lo - lo % 16, hi, 16 * w + Parting(x[w], y[w], 16));
    } else {
      EqualNeverPart(x[w], 16);
    }
  }

  /** And else the leading bits of the word after the last whole one, or of
      lo's own word if that comes later. */
  lemma LastWord(x: Words, y: Words, a: Addr, b: Addr, lo: nat, hi: nat, w: nat, m: nat)
    requires Spells(x, a) && Spells(y, b) && lo < 128 && hi <= 128 && m == hi % 16
    requires w == (if lo / 16 < hi / 16 then hi / 16 else lo / 16) && Matching(a, b, lo - lo % 16, 16 * w)
    ensures m > 0 ==> w < 8
    ensures BitDiff(a, b, lo, hi) == if m > 0 && Parting(x[w], y[w], m) < m then 16 * w + Parting(x[w], y[w], m) else hi
  {
    var start := lo - lo % 16;
    if m > 0 {
      InWord(x, y, a, b, w, m);
      if start <= hi { DiffFromOnly(a, b, start, hi, 16 * w + Parting(x[w], y[w], m)); }
    } else if start <= hi {
      DiffFromOnly(a, b, start, hi, hi);
    }
  }

  /** _cidr_bit_diff: whole words from the one that holds bit lo, then the
      leading bits of the word the loop stopped at. */
  method FirstDiff(x: Words, y: Words, lo: nat, hi: nat, ghost a: Addr, ghost b: Addr) returns (d: nat)
    requires Spells(x, a) && Spells(y, b) && lo < 128 && hi <= 128
    ensures d == BitDiff(a, b, lo, hi)
  {
    var w, last := lo / 16, hi / 16;
    while w < last
      invariant lo / 16 <= w && (w <= last || w == lo / 16) && Matching(a, b, lo - lo % 16, 16 * w)
      decreases last - w
    {
      WholeWord(x, y, a, b, lo, hi, w);
      if x[w] != y[w] { return 16 * w + Parting(x[w], y[w], 16); }
      w := w + 1;
    }
    var m := hi % 16;
    LastWord(x, y, a, b, lo, hi, w, m);
    if m != 0 && x[w] != y[w] && Parting(x[w], y[w], m) < m { return 16 * w + Parting(x[w], y[w], m); }
    if m != 0 { EqualNeverPart(x[w], m); }
    d := hi;
  }
}
