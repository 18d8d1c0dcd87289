/**
 * Integer semantics of the target (an ESP32, where both `int` and `long`
 * are 32 bits wide): the signed and unsigned 32-bit ranges, unsigned
 * subtraction that wraps modulo 2^32, and C++ signed division, which
 * truncates toward zero (Dafny's own `/` is Euclidean).
 */
module Machine {

  const INT32_MIN: int := -0x8000_0000
  const INT32_MAX: int := 0x7FFF_FFFF
  const UINT32_MODULUS: int := 0x1_0000_0000

  /** A C++ `int` (or `long`) on the target. */
  type Int32 = x: int | INT32_MIN <= x <= INT32_MAX

  /** A C++ `uint32_t`, such as a `millis()` timestamp. */
  type Uint32 = x: int | 0 <= x < UINT32_MODULUS

  predicate IsInt32(x: int) {
    INT32_MIN <= x <= INT32_MAX
  }

  function Abs(a: int): (r: nat)
    ensures r == a || r == -a
  {
    if a < 0 then -a else a
  }

  function Min(a: int, b: int): (r: int)
    ensures r <= a && r <= b && (r == a || r == b)
  {
    if a < b then a else b
  }

  function Max(a: int, b: int): (r: int)
    ensures r >= a && r >= b && (r == a || r == b)
  {
    if a < b then b else a
  }

  /**
   * `a - b` on `uint32_t`: the difference reduced modulo 2^32. Adding `b`
   * back (again modulo 2^32) gives `a`, and when no wrap occurs it is the
   * plain difference.
   */
  function Sub32(a: Uint32, b: Uint32): (r: Uint32)
    ensures (b + r) % UINT32_MODULUS == a
    ensures b <= a ==> r == a - b
    ensures a < b ==> r == a - b + UINT32_MODULUS
  {
    if b <= a then a - b else a - b + UINT32_MODULUS
  }

  /**
   * C++ `a / b` for signed operands: the quotient of the magnitudes, signed
   * by the operands' signs (see TruncDivRemainder for what makes this
   * truncation rather than Euclidean or floor division).
   */
  function TruncDiv(a: int, b: int): (q: int)
    requires b != 0
    ensures (a < 0) == (b < 0) ==> q >= 0
    ensures (a < 0) != (b < 0) ==> q <= 0
  {
    if b > 0 then
      (if a >= 0 then a / b else -((-a) / b))
    else
      (if a >= 0 then -(a / (-b)) else (-a) / (-b))
  }

  /**
   * The remainder `a - TruncDiv(a, b) * b` is smaller than `b` in magnitude
   * and carries the sign of the dividend: the rule of C and C++ division.
   */
  lemma TruncDivRemainder(a: int, b: int)
    requires b != 0
    ensures Abs(a - TruncDiv(a, b) * b) < Abs(b)
    ensures a - TruncDiv(a, b) * b == 0 || (a - TruncDiv(a, b) * b < 0 <==> a < 0)
  {
    var m := Abs(a) / Abs(b);
    var rem := Abs(a) % Abs(b);
    assert Abs(a) == m * Abs(b) + rem;
    if (a < 0) == (b < 0) {
      assert a - m * b == if a < 0 then -rem else rem;
    } else {
      assert a + m * b == if a < 0 then -rem else rem;
    }
  }

  lemma TruncDivZero(b: int)
    requires b != 0
    ensures TruncDiv(0, b) == 0
  {
  }

  /** Truncating division of a non-negative dividend by a positive divisor is Euclidean. */
  lemma TruncDivNonNeg(a: int, b: int)
    requires a >= 0 && b > 0
    ensures TruncDiv(a, b) == a / b
  {
  }

  /** Truncation of a non-positive dividend by a positive divisor rounds up. */
  lemma TruncDivNonPos(a: int, b: int)
    requires a <= 0 && b > 0
    ensures TruncDiv(a, b) == -((-a) / b)
  {
  }

  /** Euclidean division by a positive divisor is monotone in the dividend. */
  lemma DivMonotone(x: int, y: int, b: int)
    requires 0 <= x <= y && b > 0
    ensures x / b <= y / b
  {
    if x / b > y / b {
      MulMonotone(y / b + 1, x / b, b);
      assert false;
    }
  }

  lemma MulMonotone(x: int, y: int, k: int)
    requires x <= y && k >= 0
    ensures k * x <= k * y
  {
    assert k * y - k * x == k * (y - x);
  }

  /** Truncating division by a positive divisor is monotone in the dividend. */
  lemma TruncDivMonotone(x: int, y: int, b: int)
    requires x <= y && b > 0
    ensures TruncDiv(x, b) <= TruncDiv(y, b)
  {
    if 0 <= x {
      TruncDivNonNeg(x, b);
      TruncDivNonNeg(y, b);
      DivMonotone(x, y, b);
    } else if y <= 0 {
      TruncDivNonPos(x, b);
      TruncDivNonPos(y, b);
      DivMonotone(-y, -x, b);
    } else {
      TruncDivParts(x, b);
      TruncDivParts(y, b);
    }
  }

  /** Euclidean division cancels a positive factor: `(b * a) / b == a`. */
  lemma DivCancel(a: nat, b: int)
    requires b > 0
    ensures (b * a) / b == a
  {
    var t := (b * a) / b;
    var r := (b * a) % b;
    assert b * a == b * t + r && 0 <= r < b;
    assert b * (a - t) == r;
    if a - t >= 1 {
      MulMonotone(1, a - t, b);
      assert false;
    } else if a - t <= -1 {
      MulMonotone(a - t, -1, b);
      assert false;
    }
  }

  /** Dividing an exact multiple gives back the factor: `(w * k) / w == k`. */
  lemma TruncDivExact(k: int, w: int)
    requires w != 0
    ensures TruncDiv(w * k, w) == k
  {
    AbsMul(w, k);
    DivCancel(Abs(k), Abs(w));
    assert Abs(w * k) / Abs(w) == Abs(k);
    if w * k == 0 {
      assert k == 0;
    } else {
      assert (w * k < 0) == ((w < 0) != (k < 0));
    }
  }

  lemma AbsMul(a: int, b: int)
    ensures Abs(a * b) == Abs(a) * Abs(b)
  {
    if a < 0 && b < 0 {
      assert a * b == (-a) * (-b);
    } else if a < 0 {
      assert a * b == -((-a) * b);
    } else if b < 0 {
      assert a * b == -(a * (-b));
    }
  }

  /** The magnitude and sign of a truncated quotient. */
  lemma TruncDivParts(a: int, b: int)
    requires b != 0
    ensures Abs(TruncDiv(a, b)) == Abs(a) / Abs(b)
    ensures (a < 0) == (b < 0) ==> TruncDiv(a, b) >= 0
    ensures (a < 0) != (b < 0) ==> TruncDiv(a, b) <= 0
  {
    var m := Abs(a) / Abs(b);
    assert m >= 0;
    assert TruncDiv(a, b) == if (a < 0) == (b < 0) then m else -m;
  }

  /**
   * The interpolation step of a range mapping: when `d` lies between 0 and
   * `w` (same sign, no larger), `(d * k) / w` truncated lies between 0 and `k`.
   */
  lemma TruncDivScaled(d: int, k: int, w: int)
    requires w != 0
    requires d == 0 || (d > 0 <==> w > 0)
    requires Abs(d) <= Abs(w)
    ensures Min(0, k) <= TruncDiv(d * k, w) <= Max(0, k)
  {
    var p := d * k;
    // |q| is the quotient of the magnitudes and so at most |k|
    TruncDivParts(p, w);
    AbsMul(d, k);
    MulMonotone(Abs(d), Abs(w), Abs(k));
    assert Abs(p) <= Abs(w) * Abs(k);
    DivMonotone(Abs(p), Abs(w) * Abs(k), Abs(w));
    DivCancel(Abs(k), Abs(w));
    assert Abs(TruncDiv(p, w)) <= Abs(k);
    // q has the sign of k (or is zero)
    SignOfProduct(d, k);
  }

  lemma SignOfProduct(d: int, k: int)
    ensures d == 0 || k == 0 ==> d * k == 0
    ensures d > 0 && k > 0 ==> d * k > 0
    ensures d < 0 && k < 0 ==> d * k > 0
    ensures d > 0 && k < 0 ==> d * k < 0
    ensures d < 0 && k > 0 ==> d * k < 0
  {
  }

  /** Scaling by `k` keeps a value that lies between 0 and `w` between 0 and `w * k`. */
  lemma ScaleBetween(d: int, k: int, w: int)
    requires Min(0, w) <= d <= Max(0, w)
    ensures Min(0, w * k) <= d * k <= Max(0, w * k)
  {
    if k >= 0 {
      if w >= 0 {
        MulMonotone(0, d, k);
        MulMonotone(d, w, k);
      } else {
        MulMonotone(w, d, k);
        MulMonotone(d, 0, k);
      }
    } else {
      if w >= 0 {
        MulMonotone(0, d, -k);
        MulMonotone(d, w, -k);
      } else {
        MulMonotone(w, d, -k);
        MulMonotone(d, 0, -k);
      }
    }
  }

  /**
   * `(d * k) / w`, truncated, for a positive `w` and a growing
   * non-negative `d`: it follows the sign of `k`.
   */
  lemma ScaledMonotone(dx: int, dy: int, k: int, w: int)
    requires 0 <= dx <= dy && w > 0
    ensures k >= 0 ==> TruncDiv(dx * k, w) <= TruncDiv(dy * k, w)
    ensures k <= 0 ==> TruncDiv(dx * k, w) >= TruncDiv(dy * k, w)
  {
    if k >= 0 {
      MulMonotone(dx, dy, k);
      TruncDivMonotone(dx * k, dy * k, w);
    } else {
      MulMonotone(dx, dy, -k);
      assert dy * k <= dx * k;
      TruncDivMonotone(dy * k, dx * k, w);
    }
  }
}
