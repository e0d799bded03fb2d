/**
 * Flag sets: an array of machine words used as a set of small numbers, with
 * the bits of a word taken one at a time.
 */
module FlagSet {
  const NBITS := 64

  // ----- Words --------------------------------------------------------------

  predicate Bit(w: nat, i: nat)
    decreases i, w
  {
    if i == 0 then w % 2 == 1 else Bit(w / 2, i - 1)
  }

  function Or(a: nat, b: nat): nat
    decreases a + b
  {
    if a == 0 then b else 2 * Or(a / 2, b / 2) + (if a % 2 == 1 || b % 2 == 1 then 1 else 0)
  }

  function And(a: nat, b: nat): nat
    decreases a + b
  {
    if a == 0 || b == 0 then 0 else 2 * And(a / 2, b / 2) + (if a % 2 == 1 && b % 2 == 1 then 1 else 0)
  }

  // a & ~b
  function AndNot(a: nat, b: nat): nat
    decreases a + b
  {
    if a == 0 then 0 else 2 * AndNot(a / 2, b / 2) + (if a % 2 == 1 && b % 2 == 0 then 1 else 0)
  }

  // 1 << i
  function Mask(i: nat): nat {
    if i == 0 then 1 else 2 * Mask(i - 1)
  }

  lemma {:induction false} ZeroBits(i: nat)
    ensures !Bit(0, i)
  {
    if i > 0 {
      ZeroBits(i - 1);
    }
  }

  lemma {:induction false} BitMask(i: nat, j: nat)
    ensures Bit(Mask(i), j) <==> i == j
  {
    if i == 0 {
      if j > 0 { ZeroBits(j - 1); }
    } else if j > 0 {
      BitMask(i - 1, j - 1);
    }
  }

  lemma {:induction false} BitOr(a: nat, b: nat, j: nat)
    ensures Bit(Or(a, b), j) <==> Bit(a, j) || Bit(b, j)
    decreases j
  {
    if a == 0 {
      ZeroBits(j);
    } else if j > 0 {
      BitOr(a / 2, b / 2, j - 1);
    }
  }

  lemma {:induction false} BitAndNot(a: nat, b: nat, j: nat)
    ensures Bit(AndNot(a, b), j) <==> Bit(a, j) && !Bit(b, j)
    decreases j
  {
    if a == 0 {
      ZeroBits(j);
    } else if j > 0 {
      BitAndNot(a / 2, b / 2, j - 1);
    }
  }

  // Testing a word against a mask tests the bit.
  lemma {:induction false} AndMask(a: nat, i: nat)
    ensures And(a, Mask(i)) != 0 <==> Bit(a, i)
    decreases i
  {
    if a == 0 {
      ZeroBits(i);
    } else if i > 0 {
      AndMask(a / 2, i - 1);
      assert Mask(i) / 2 == Mask(i - 1) && Mask(i) % 2 == 0;
    }
  }

  lemma {:induction false} OrFits(a: nat, b: nat, n: nat)
    requires a < Mask(n) && b < Mask(n)
    ensures Or(a, b) < Mask(n)
    decreases n
  {
    if a > 0 && n > 0 {
      OrFits(a / 2, b / 2, n - 1);
    }
  }

  lemma {:induction false} AndNotFits(a: nat, b: nat)
    ensures AndNot(a, b) <= a
    decreases a
  {
    if a > 0 {
      AndNotFits(a / 2, b / 2);
    }
  }

  lemma {:induction false} MaskFits(i: nat, n: nat)
    requires i < n
    ensures Mask(i) < Mask(n)
  {
    if i > 0 {
      MaskFits(i - 1, n - 1);
    } else if n > 1 {
      MaskFits(0, n - 1);
    }
  }

  // A word of n bits with none set is zero.
  lemma {:induction false} NoBits(w: nat, n: nat)
    requires w < Mask(n) && forall i :: 0 <= i < n ==> !Bit(w, i)
    ensures w == 0
    decreases n
  {
    if n > 0 {
      assert !Bit(w, 0);
      forall i | 0 <= i < n - 1 ensures !Bit(w / 2, i) {
        assert !Bit(w, i + 1);
      }
      NoBits(w / 2, n - 1);
    }
  }

  // ----- Sets ---------------------------------------------------------------

  predicate Has(ws: seq<nat>, f: nat) {
    f / NBITS < |ws| && Bit(ws[f / NBITS], f % NBITS)
  }

  class Flags {
    const bits: array<nat>
    const max: nat

    ghost predicate Valid()
      reads this, bits
    {
      && bits.Length == (max + NBITS - 1) / NBITS
      && forall i :: 0 <= i < bits.Length ==> bits[i] < Mask(NBITS)
    }

    // The set of flags.
    ghost function Members(): set<nat>
      reads this, bits
    {
      set f | 0 <= f < bits.Length * NBITS && Has(bits[..], f)
    }

    constructor (max: nat)
      ensures Valid() && Members() == {} && this.max == max && fresh(bits)
    {
      this.max := max;
      bits := new nat[(max + NBITS - 1) / NBITS](_ => 0);
      new;
      MaskFits(0, NBITS);
      forall f: nat ensures !Has(bits[..], f) {
        ZeroBits(f % NBITS);
      }
    }

    method HasFlag(f: nat) returns (r: bool)
      requires Valid() && f < max
      ensures r <==> f in Members()
    {
      var w := bits[f / NBITS];
      AndMask(w, f % NBITS);
      r := And(w, Mask(f % NBITS)) != 0;
    }

    method SetFlag(f: nat)
      requires Valid() && f < max
      modifies bits
      ensures Valid() && Members() == old(Members()) + {f}
    {
      ghost var was := bits[..];
      var i := f / NBITS;
      MaskFits(f % NBITS, NBITS);
      OrFits(bits[i], Mask(f % NBITS), NBITS);
      bits[i] := Or(bits[i], Mask(f % NBITS));
      forall g: nat ensures Has(bits[..], g) <==> Has(was, g) || g == f {
        SetHas(was, f, g);
      }
    }

    method ClearFlag(f: nat)
      requires Valid() && f < max
      modifies bits
      ensures Valid() && Members() == old(Members()) - {f}
    {
      ghost var was := bits[..];
      var i := f / NBITS;
      AndNotFits(bits[i], Mask(f % NBITS));
      bits[i] := AndNot(bits[i], Mask(f % NBITS));
      forall g: nat ensures Has(bits[..], g) <==> Has(was, g) && g != f {
        ClearHas(was, f, g);
      }
    }

    method Empty() returns (r: bool)
      requires Valid()
      ensures r <==> Members() == {}
    {
      for i := 0 to bits.Length
        invariant forall j :: 0 <= j < i ==> bits[j] == 0
      {
        if bits[i] != 0 {
          ghost var f := NonZeroWord(bits[..], i);
          assert f in Members();
          return false;
        }
      }
      forall f | 0 <= f < bits.Length * NBITS ensures !Has(bits[..], f) {
        ZeroBits(f % NBITS);
      }
      return true;
    }
  }

  // Two flags in the same word are different bits of it.
  lemma SameWord(f: nat, g: nat)
    ensures f == g <==> f / NBITS == g / NBITS && f % NBITS == g % NBITS
  {
  }

  lemma SetHas(ws: seq<nat>, f: nat, g: nat)
    requires f / NBITS < |ws|
    ensures var i := f / NBITS;
            Has(ws[i := Or(ws[i], Mask(f % NBITS))], g) <==> Has(ws, g) || g == f
  {
    SameWord(f, g);
    BitOr(ws[f / NBITS], Mask(f % NBITS), g % NBITS);
    BitMask(f % NBITS, g % NBITS);
  }

  lemma ClearHas(ws: seq<nat>, f: nat, g: nat)
    requires f / NBITS < |ws|
    ensures var i := f / NBITS;
            Has(ws[i := AndNot(ws[i], Mask(f % NBITS))], g) <==> Has(ws, g) && g != f
  {
    SameWord(f, g);
    BitAndNot(ws[f / NBITS], Mask(f % NBITS), g % NBITS);
    BitMask(f % NBITS, g % NBITS);
  }

  lemma NonZeroWord(ws: seq<nat>, i: nat) returns (f: nat)
    requires i < |ws| && 0 < ws[i] < Mask(NBITS)
    ensures f < |ws| * NBITS && Has(ws, f)
  {
    if forall j :: 0 <= j < NBITS ==> !Bit(ws[i], j) {
      NoBits(ws[i], NBITS);
    }
    var j :| 0 <= j < NBITS && Bit(ws[i], j);
    f := i * NBITS + j;
    assert f / NBITS == i && f % NBITS == j;
  }
}
