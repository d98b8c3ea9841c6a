/** Facts about integer division used by the frame/timecode cascades. Python 2's
    `/` on ints floors; for a positive divisor that is Dafny's `/` as well. */
module Arith {

  /** Quotient and remainder are determined by any decomposition a == q*b + r with 0 <= r < b. */
  lemma DivModUnique(a: int, b: int, q: int, r: int)
    requires b > 0 && 0 <= r < b && a == q * b + r
    ensures a / b == q && a % b == r
  {
    var q0, r0 := a / b, a % b;
    assert a == q0 * b + r0 && 0 <= r0 < b;
    if q0 < q {
      assert (q - q0) * b >= 1 * b by { MulMonotone(1, q - q0, b); }
      assert false;
    } else if q0 > q {
      assert (q0 - q) * b >= 1 * b by { MulMonotone(1, q0 - q, b); }
      assert false;
    }
  }

  lemma MulMonotone(x: int, y: int, b: int)
    requires x <= y && b >= 0
    ensures x * b <= y * b
  {
    assert y * b - x * b == (y - x) * b;
  }

  /** A value below k*b has quotient below k. */
  lemma DivLess(a: int, b: int, k: int)
    requires b > 0 && 0 <= a < k * b
    ensures 0 <= a / b < k
  {
    var q := a / b;
    assert q * b <= a;
    if q >= k {
      MulMonotone(k, q, b);
      assert false;
    }
    if q < 0 {
      MulMonotone(q, -1, b);
      assert false;
    }
  }

  /** A non-negative value has a non-negative quotient and a remainder below the divisor. */
  lemma DivModNonneg(a: int, b: int)
    requires a >= 0 && b > 0
    ensures a / b >= 0 && 0 <= a % b < b
  {
    if a / b < 0 {
      MulMonotone(a / b, -1, b);
      assert false;
    }
  }

  lemma Distribute(x: int, y: int, z: int)
    ensures (x + y) * z == x * z + y * z
  {
  }

  lemma Associate(x: int, y: int, z: int)
    ensures x * (y * z) == (x * y) * z
  {
  }

  /** Floor division leaves a remainder in [0, b), for any sign of a. */
  lemma Remainder(a: int, b: int)
    requires b > 0
    ensures 0 <= a - (a / b) * b < b
  {
  }
}
