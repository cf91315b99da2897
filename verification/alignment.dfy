/** Alignment rounding (main.go `align`), with Go's truncating remainder
    written out so that the rounding is defined for every nonzero alignment
    exactly as the source computes it. */
module Alignment {

  function Abs(x: int): nat {
    if x < 0 then -x else x
  }

  /** `z` is a whole multiple of `a`. */
  predicate MultipleOf(z: int, a: int)
    requires a != 0
  {
    z % a == 0
  }

  /** Go's `y % a` on integers: the remainder of division truncated toward
      zero, so its sign follows the dividend. (Dafny's `%` is Euclidean.) */
  function GoRem(y: int, a: int): (r: int)
    requires a != 0
  {
    if y >= 0 || y % a == 0 then y % a else y % a - Abs(a)
  }

  /** The truncated remainder is smaller than the divisor in magnitude, has
      the sign of the dividend, and leaves a multiple of the divisor. */
  lemma GoRemSound(y: int, a: int)
    requires a != 0
    ensures Abs(GoRem(y, a)) < Abs(a)
    ensures y >= 0 ==> GoRem(y, a) >= 0
    ensures y < 0 ==> GoRem(y, a) <= 0
    ensures MultipleOf(y - GoRem(y, a), a)
  {
    var q, m := y / a, y % a;
    assert y == a * q + m;
    if y >= 0 || m == 0 {
      assert y - GoRem(y, a) == a * q;
      MultipleOfProduct(a, q);
    } else if a > 0 {
      assert y - GoRem(y, a) == a * (q + 1);
      MultipleOfProduct(a, q + 1);
    } else {
      assert y - GoRem(y, a) == a * (q - 1);
      MultipleOfProduct(a, q - 1);
    }
  }

  lemma {:induction false} ProductOfNaturals(a: nat, d: nat)
    requires d > 0
    ensures a * d >= a
    decreases d
  {
    if d > 1 {
      ProductOfNaturals(a, d - 1);
      assert a * d == a * (d - 1) + a;
    }
  }

  /** A nonzero whole factor does not shrink a product. */
  lemma ProductAtLeast(a: int, d: int)
    requires d != 0
    ensures Abs(a * d) >= Abs(a)
  {
    ProductOfNaturals(Abs(a), Abs(d));
    assert Abs(a * d) == Abs(a) * Abs(d) by {
      if a < 0 && d < 0 {
        assert a * d == (-a) * (-d);
      } else if a < 0 {
        assert a * d == -((-a) * d);
      } else if d < 0 {
        assert a * d == -(a * (-d));
      }
    }
  }

  lemma MultipleOfProduct(a: int, k: int)
    requires a != 0
    ensures MultipleOf(a * k, a)
  {
    var q, r := (a * k) / a, (a * k) % a;
    assert a * k == a * q + r;
    assert r == a * (k - q);
    if k - q != 0 {
      ProductAtLeast(a, k - q);
      assert false;
    }
  }

  lemma MultipleOfSum(x: int, y: int, a: int)
    requires a != 0 && MultipleOf(x, a) && MultipleOf(y, a)
    ensures MultipleOf(x + y, a)
  {
    var qx, qy := x / a, y / a;
    assert x == a * qx && y == a * qy;
    assert x + y == a * (qx + qy);
    MultipleOfProduct(a, qx + qy);
  }

  /** main.go `align`: rounds `x` up to a multiple of `a`, computing
      `x + a - 1` minus its truncated remainder. */
  function AlignUp(x: int, a: int): (y: int)
    requires a != 0
  {
    var t := x + a - 1;
    t - GoRem(t, a)
  }

  /** The result of `align` is a multiple of `a` for every nonzero `a`; for
      a positive alignment it never lies below `x`, and for a non-negative
      `x` it lies less than one alignment step above it. A negative
      alignment moves it below `x`. */
  lemma AlignUpSound(x: int, a: int)
    requires a != 0
    ensures MultipleOf(AlignUp(x, a), a)
    ensures a > 0 ==> x <= AlignUp(x, a)
    ensures a > 0 && x >= 0 ==> AlignUp(x, a) < x + a
    ensures a < 0 ==> AlignUp(x, a) < x
  {
    GoRemSound(x + a - 1, a);
  }

  /** Rounding up to a positive alignment never moves backwards. */
  lemma AlignUpNotBelow(x: int, a: int)
    requires a > 0
    ensures x <= AlignUp(x, a)
  {
    AlignUpSound(x, a);
  }

  /** Two multiples of `a` more than zero apart are at least `a` apart. */
  lemma {:induction false} MultiplesApart(y: int, z: int, a: int)
    requires a > 0 && MultipleOf(y, a) && MultipleOf(z, a) && z < y
    ensures z + a <= y
  {
    var qy, qz := y / a, z / a;
    assert y == a * qy;
    assert z == a * qz;
    assert y - z == a * (qy - qz);
    ProductAtLeast(a, qy - qz);
  }

  /** For `x >= 0` and `a > 0`, `AlignUp(x, a)` is the smallest multiple of
      `a` that is at least `x` (the promise in the comment above `align`). */
  lemma {:induction false} AlignUpIsLeast(x: int, a: int)
    requires a > 0 && x >= 0
    ensures forall z :: x <= z && MultipleOf(z, a) ==> AlignUp(x, a) <= z
  {
    var y := AlignUp(x, a);
    AlignUpSound(x, a);
    forall z | x <= z && MultipleOf(z, a)
      ensures y <= z
    {
      if z < y {
        MultiplesApart(y, z, a);
      }
    }
  }

  /** A position that is already a multiple of the alignment is left alone. */
  lemma {:induction false} AlignUpFixesMultiples(x: int, a: int)
    requires a > 0 && x >= 0 && MultipleOf(x, a)
    ensures AlignUp(x, a) == x
  {
    AlignUpSound(x, a);
    AlignUpIsLeast(x, a);
  }
}
