/** Rounding up by masking, `(x + a - 1) & ~(a - 1)`, as layout and allocation code does it. */
module Rounding {
  import opened Word

  /** Bitwise and. */
  function Masked(x: nat, m: nat): nat {
    if x == 0 || m == 0 then 0 else x % 2 * (m % 2) + 2 * Masked(x / 2, m / 2)
  }

  lemma {:induction false} MaskedAtMost(x: nat, m: nat)
    ensures Masked(x, m) <= m && Masked(x, m) <= x
  {
    if x > 0 && m > 0 {
      MaskedAtMost(x / 2, m / 2);
    }
  }

  ghost predicate IsPow2(a: nat) {
    exists k: nat :: a == Pow2(k)
  }

  lemma {:induction false} MaskIsRemainder(x: nat, k: nat)
    ensures Masked(x, Pow2(k) - 1) == x % Pow2(k)
  {
    if k > 0 {
      MaskIsRemainder(x / 2, k - 1);
      HalfMod(x, k);
      MaskStep(x, Pow2(k - 1));
      Halves(x % Pow2(k));
    }
  }

  lemma MaskStep(x: nat, p: nat)
    requires p > 0
    ensures Masked(x, 2 * p - 1) == x % 2 + 2 * Masked(x / 2, p - 1)
  {
  }

  lemma Halves(y: nat)
    ensures y == y % 2 + 2 * (y / 2)
  {
  }

  /** The code computes this for any `a`, a power of two or not. */
  function RoundUp(x: nat, a: nat): (r: nat)
    requires a > 0
  {
    MaskedAtMost(x + a - 1, a - 1);
    x + a - 1 - Masked(x + a - 1, a - 1)
  }

  /** For any `a` the result does not fall below `x` and rises by less than `a`. */
  lemma RoundUpBounds(x: nat, a: nat)
    requires a > 0
    ensures x <= RoundUp(x, a) < x + a
  {
    MaskedAtMost(x + a - 1, a - 1);
  }

  /** For a power of two it is the next multiple. */
  lemma RoundUpAligned(x: nat, a: nat)
    requires IsPow2(a)
    ensures RoundUp(x, a) % a == 0
    ensures x % a == 0 ==> RoundUp(x, a) == x
  {
    var k: nat :| a == Pow2(k);
    var y := x + a - 1;
    MaskIsRemainder(y, k);
    Floored(y, a);
    if x % a == 0 {
      LastBefore(x, a);
    }
  }

  lemma Floored(y: nat, a: nat)
    requires a > 0
    ensures (y - y % a) % a == 0
  {
    DivModUnique(y - y % a, a, y / a, 0);
  }

  lemma LastBefore(x: nat, a: nat)
    requires a > 0 && x % a == 0
    ensures (x + a - 1) % a == a - 1
  {
    DivModUnique(x + a - 1, a, x / a, a - 1);
  }

  lemma Multiple(q: nat, a: nat)
    requires a > 0
    ensures q * a % a == 0
  {
    DivModUnique(q * a, a, q, 0);
  }

  lemma SumRemainder(x: nat, y: nat, a: nat)
    requires a > 0 && x % a == 0
    ensures (x + y) % a == y % a
  {
    var q, p := x / a, y / a;
    assert x + y == (q + p) * a + y % a by {
      assert q * a == x && p * a + y % a == y;
    }
    DivModUnique(x + y, a, q + p, y % a);
  }
}
