/**
  Range masks as the architecture reads them: an address is in a range when it agrees with the
  base on every bit of the mask.
*/
module Masks {

  function Pow2(k: nat): (n: nat)
    ensures n > 0
  {
    if k == 0 then 1 else 2 * Pow2(k - 1)
  }

  /** The lowest set bit of a mask: the length of its range in pages. */
  function LowestBit(m: nat): (b: nat)
    requires 0 < m
    ensures 0 < b <= m
  {
    if m % 2 == 1 then 1 else 2 * LowestBit(m / 2)
  }

  /** It is a power of two, and the mask is an odd multiple of it. */
  lemma {:induction false} LowestBitIs(m: nat) returns (j: nat, k: nat)
    requires 0 < m
    ensures LowestBit(m) == Pow2(j) && k % 2 == 1 && m == LowestBit(m) * k
  {
    if m % 2 == 1 {
      j, k := 0, m;
    } else {
      j, k := LowestBitIs(m / 2);
      j := j + 1;
    }
  }

  /** Bitwise and. */
  function Masked(y: nat, m: nat): (z: nat) {
    if m == 0 then 0 else y % 2 * (m % 2) + 2 * Masked(y / 2, m / 2)
  }

  predicate Matches(base: nat, mask: nat, y: nat) {
    Masked(y, mask) == Masked(base, mask)
  }

  lemma HalfThenQuotient(y: nat, b: nat)
    requires b > 0
    ensures y / (2 * b) == y / 2 / b
  {
    var q, r := y / 2 / b, y / 2 % b;
    assert y == 2 * (b * q + r) + y % 2;
    assert y == 2 * b * q + (2 * r + y % 2) && 2 * r + y % 2 < 2 * b;
    QuotientIs(y, 2 * b, q, 2 * r + y % 2);
  }

  lemma QuotientIs(y: nat, d: nat, q: nat, r: nat)
    requires y == d * q + r && r < d
    ensures y / d == q
  {
    AtLeastOnce(d, y / d - q);
    AtLeastOnce(d, q - y / d);
  }

  lemma AtLeastOnce(d: nat, n: int)
    ensures n > 0 ==> d * n >= d
  {
  }

  /** Bits below the lowest one of the mask do not matter. */
  lemma {:induction false} SameBlockMatches(y: nat, z: nat, m: nat)
    requires 0 < m && y / LowestBit(m) == z / LowestBit(m)
    ensures Masked(y, m) == Masked(z, m)
  {
    if m % 2 == 0 {
      HalfThenQuotient(y, LowestBit(m / 2));
      HalfThenQuotient(z, LowestBit(m / 2));
      SameBlockMatches(y / 2, z / 2, m / 2);
    }
  }

  /** A mask without gaps, over k bits, matches nothing but the base's own block. */
  lemma {:induction false} MatchesOwnBlock(y: nat, z: nat, m: nat, k: nat)
    requires 0 < m && m == Pow2(k) - LowestBit(m) && y < Pow2(k) && z < Pow2(k) && Masked(y, m) == Masked(z, m)
    ensures y / LowestBit(m) == z / LowestBit(m)
  {
    if m % 2 == 0 {
      HalfThenQuotient(y, LowestBit(m / 2));
      HalfThenQuotient(z, LowestBit(m / 2));
      MatchesOwnBlock(y / 2, z / 2, m / 2, k - 1);
    } else if m > 1 {
      assert LowestBit(m / 2) == 1;
      MatchesOwnBlock(y / 2, z / 2, m / 2, k - 1);
      assert y / 2 / 1 == y / 2 && z / 2 / 1 == z / 2;
    }
  }

  /** A mask that leaves out some bit matches a second address. */
  lemma {:induction false} SecondMatch(m: nat, k: nat, base: nat) returns (y: nat)
    requires m < Pow2(k) - 1 && base < Pow2(k)
    ensures y < Pow2(k) && y != base && Masked(y, m) == Masked(base, m)
  {
    if m % 2 == 0 {
      y := if base % 2 == 0 then base + 1 else base - 1;
      assert y / 2 == base / 2;
    } else {
      var h := SecondMatch(m / 2, k - 1, base / 2);
      y := 2 * h + base % 2;
      assert y / 2 == h && y % 2 == base % 2;
    }
  }

  /** A mask with a gap matches an address beyond one block from the base. */
  lemma {:induction false} FarMatch(m: nat, k: nat, base: nat) returns (y: nat)
    requires 0 < m < Pow2(k) && m != Pow2(k) - LowestBit(m) && base < Pow2(k)
    ensures y < Pow2(k) && Masked(y, m) == Masked(base, m) && !(base <= y < base + LowestBit(m))
  {
    if m % 2 == 1 {
      y := SecondMatch(m, k, base);
    } else {
      var h := FarMatch(m / 2, k - 1, base / 2);
      y := 2 * h + base % 2;
    }
  }

  /** An aligned base and a mask without gaps. */
  predicate Regular(base: nat, mask: nat, k: nat)
    requires 0 < mask
  {
    base % LowestBit(mask) == 0 && mask == Pow2(k) - LowestBit(mask)
  }

  /** The pages from the base on, as many as the lowest bit of the mask says, are the matching
      pages exactly when the base is aligned and the mask has no gaps. */
  lemma BlockIsMatchIff(base: nat, mask: nat, k: nat)
    requires 0 < mask < Pow2(k) && base < Pow2(k)
    ensures (forall y :: 0 <= y < Pow2(k) ==> (base <= y < base + LowestBit(mask) <==> Matches(base, mask, y)))
            <==> Regular(base, mask, k)
  {
    hide Matches, Regular;
    if Regular(base, mask, k) {
      forall y | 0 <= y < Pow2(k) ensures base <= y < base + LowestBit(mask) <==> Matches(base, mask, y) {
        RegularMatches(base, mask, k, y);
      }
    } else {
      var y := IrregularMatch(base, mask, k);
    }
  }

  lemma RegularMatches(base: nat, mask: nat, k: nat, y: nat)
    requires 0 < mask < Pow2(k) && base < Pow2(k) && y < Pow2(k) && Regular(base, mask, k)
    ensures base <= y < base + LowestBit(mask) <==> Matches(base, mask, y)
  {
    hide LowestBit, Masked, Pow2;
    BlockOf(base, LowestBit(mask), y);
    if y / LowestBit(mask) == base / LowestBit(mask) { SameBlockMatches(y, base, mask); }
    if Matches(base, mask, y) { MatchesOwnBlock(y, base, mask, k); }
  }

  lemma IrregularMatch(base: nat, mask: nat, k: nat) returns (y: nat)
    requires 0 < mask < Pow2(k) && base < Pow2(k) && !Regular(base, mask, k)
    ensures y < Pow2(k) && Matches(base, mask, y) && !(base <= y < base + LowestBit(mask))
  {
    hide LowestBit, Masked, Pow2;
    var b := LowestBit(mask);
    if base % b != 0 {
      y := base - base % b;
      QuotientIs(y, b, base / b, 0);
      SameBlockMatches(y, base, mask);
    } else {
      y := FarMatch(mask, k, base);
    }
  }

  lemma BlockOf(base: nat, b: nat, y: nat)
    requires 0 < b && base % b == 0
    ensures y / b == base / b <==> base <= y < base + b
  {
    var q := base / b;
    assert base == b * q;
    if base <= y < base + b { QuotientIs(y, b, q, y - base); }
  }

  // ---- Masks written out ----

  lemma {:induction false} Pow2Add(j: nat, k: nat)
    ensures Pow2(j + k) == Pow2(j) * Pow2(k)
  {
    if j > 0 { Pow2Add(j - 1, k); }
  }

  lemma Pow2Values()
    ensures Pow2(18) == 262144 && Pow2(36) == 68719476736
  {
    assert Pow2(3) == 8 && Pow2(6) == 8 * Pow2(3);
    Pow2Add(6, 6);
    Pow2Add(6, 12);
    Pow2Add(18, 18);
  }

  /** All bits set: every address is itself. */
  lemma {:induction false} AllOnes(y: nat, k: nat)
    requires y < Pow2(k)
    ensures Masked(y, Pow2(k) - 1) == y
    ensures k > 0 ==> LowestBit(Pow2(k) - 1) == 1
  {
    if k > 0 {
      AllOnes(y / 2, k - 1);
      assert (Pow2(k) - 1) / 2 == Pow2(k - 1) - 1;
    }
  }

  lemma Twice(a: nat, b: nat)
    ensures 2 * a * b == 2 * (a * b)
  {
  }

  /** All bits from bit j on set: the range is 2^j long and 0 matches all of the first block. */
  lemma {:induction false} OnesFrom(y: nat, j: nat, k: nat)
    requires k > 0 && y < Pow2(j)
    ensures Pow2(j) * (Pow2(k) - 1) > 0
    ensures LowestBit(Pow2(j) * (Pow2(k) - 1)) == Pow2(j) && Masked(y, Pow2(j) * (Pow2(k) - 1)) == 0
  {
    assert Pow2(k) == 2 * Pow2(k - 1);
    if j > 0 {
      var m := Pow2(j - 1) * (Pow2(k) - 1);
      OnesFrom(y / 2, j - 1, k);
      Twice(Pow2(j - 1), Pow2(k) - 1);
    } else {
      assert Masked(0, Pow2(k) - 1) == 0 by { AllOnes(0, k); }
    }
  }
}
