/**
 Bitwise AND on unsigned integers, written as arithmetic on naturals, and the
 fact the pixel addressing relies on: masking with `2^k - 1` keeps the
 remainder modulo `2^k`.
 */
module Bits {

  /** `a & b` for non-negative operands, one bit at a time from the bottom. */
  function BitAnd(a: nat, b: nat): nat
    decreases a
  {
    if a == 0 || b == 0 then 0
    else (if a % 2 == 1 && b % 2 == 1 then 1 else 0) + 2 * BitAnd(a / 2, b / 2)
  }

  function Pow2(k: nat): (p: nat)
    ensures p >= 1
  {
    if k == 0 then 1 else 2 * Pow2(k - 1)
  }

  lemma MulAtLeast(a: int, m: int)
    requires a >= 1 && m > 0
    ensures a * m >= m
  {
  }

  /** Quotient and remainder are determined by the division identity. */
  lemma DivModUnique(y: int, m: int, q: int, r: int)
    requires m > 0 && y == q * m + r && 0 <= r < m
    ensures y % m == r && y / m == q
  {
    var q' := y / m;
    var r' := y % m;
    assert y == q' * m + r';
    assert q * m - q' * m == (q - q') * m;
    if q > q' {
      MulAtLeast(q - q', m);
      assert false;
    } else if q < q' {
      MulAtLeast(q' - q, m);
      assert false;
    }
  }

  /** The remainder modulo `2p` is the low bit plus twice the remainder of the rest. */
  lemma ModDouble(y: nat, p: nat)
    requires p >= 1
    ensures y % (2 * p) == y % 2 + 2 * ((y / 2) % p)
  {
    var q := (y / 2) / p;
    var r := (y / 2) % p;
    assert y / 2 == q * p + r;
    assert y == 2 * (y / 2) + y % 2;
    assert y == q * (2 * p) + (2 * r + y % 2);
    DivModUnique(y, 2 * p, q, 2 * r + y % 2);
  }

  /** Masking with `k` one-bits keeps exactly the remainder modulo `2^k`. */
  lemma {:induction false} MaskLowBits(y: nat, k: nat)
    ensures BitAnd(y, Pow2(k) - 1) == y % Pow2(k)
    decreases k
  {
    if k == 0 {
    } else if y == 0 {
    } else {
      var p := Pow2(k - 1);
      assert (Pow2(k) - 1) / 2 == p - 1;
      MaskLowBits(y / 2, k - 1);
      ModDouble(y, p);
    }
  }
}
