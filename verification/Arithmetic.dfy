/**
 Multiplication, division and rounding by a symbolic page or node size.
 */
module Arithmetic {

  function Max(x: int, y: int): int { if x < y then y else x }

  function Min(x: int, y: int): int { if x < y then x else y }

  function AlignDown(x: int, p: nat): (r: int)
    requires p >= 1
    ensures x >= 0 ==> r >= 0
  {
    x / p * p
  }

  function AlignUp(x: int, p: nat): (r: int)
    requires p >= 1
    ensures x >= 0 ==> r >= 0
  {
    AlignDown(x + p - 1, p)
  }

  lemma MulLe(i: int, j: int, c: nat)
    requires i <= j
    ensures i * c <= j * c
  {
    assert (j - i) * c >= 0;
    assert j * c == i * c + (j - i) * c;
  }

  lemma MulStep(i: int, j: int, p: nat)
    requires i < j
    ensures i * p + p <= j * p
  {
    MulLe(i + 1, j, p);
    assert (i + 1) * p == i * p + p;
  }

  /** The multiple of `p` below `x` gives quotient and remainder. */
  lemma DivUnique(x: int, p: nat, k: int)
    requires p >= 1 && k * p <= x < k * p + p
    ensures x / p == k && x % p == x - k * p
  {
    var d := x / p;
    assert x == d * p + x % p;
    if d < k { MulStep(d, k, p); }
    if k < d { MulStep(k, d, p); }
  }

  lemma DownMultiple(x: nat, p: nat)
    requires p >= 1
    ensures (x - x % p) % p == 0 && (x < p ==> x % p == x)
  {
    assert x == x / p * p + x % p;
    DivUnique(x - x % p, p, x / p);
    if x < p { DivUnique(x, p, 0); }
  }

  /** Rounding down takes off the remainder. */
  lemma AlignDownIs(x: int, p: nat)
    requires p >= 1
    ensures AlignDown(x, p) == x - x % p
  {
  }

  /** Rounding up adds what the remainder lacks. */
  lemma AlignUpIs(x: int, p: nat)
    requires p >= 1
    ensures AlignUp(x, p) == if x % p == 0 then x else x + (p - x % p)
  {
    var q, r := x / p, x % p;
    assert x == q * p + r;
    if r == 0 {
      DivUnique(x + p - 1, p, q);
    } else {
      assert (q + 1) * p == q * p + p;
      DivUnique(x + p - 1, p, q + 1);
    }
  }
}
