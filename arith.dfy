/** Integer helpers shared by the generator, the draft controller and the line renderer:
    absolute value, Rust's truncating signed division and the integer square root used
    for every star distance. */
module Arith {

  /** Largest value of a 32-bit signed integer (`i32::MAX`). */
  const I32_MAX: int := 0x7fff_ffff

  /** Number of values of a 32-bit unsigned integer. */
  const U32_MODULUS: int := 0x1_0000_0000

  function Abs(x: int): int {
    if x < 0 then -x else x
  }

  /** Rust's `/` on signed integers: the quotient rounded toward zero (Dafny's own `/`
      is Euclidean). The quotient's magnitude is the floor of |a|/|b| and its sign is
      the product of the operands' signs. */
  function TruncDiv(a: int, b: int): (q: int)
    requires b != 0
    ensures Abs(q) * Abs(b) <= Abs(a) < (Abs(q) + 1) * Abs(b)
    ensures a == 0 || (a > 0) == (b > 0) ==> q >= 0
    ensures a != 0 && (a > 0) != (b > 0) ==> q <= 0
  {
    var m := NatDiv(Abs(a), Abs(b));
    if (a >= 0) == (b > 0) || a == 0 then m else -(m as int)
  }

  /** Division of naturals rounds down: the quotient brackets the dividend. */
  function NatDiv(x: nat, y: nat): (m: nat)
    requires y > 0
    ensures m * y <= x < (m + 1) * y
  {
    var m := x / y;
    assert 0 <= m by { DivNonNegative(x, y); }
    assert m * y <= x < (m + 1) * y by { DivBounds(x, y); }
    m
  }

  lemma DivNonNegative(a: nat, b: nat)
    requires b > 0
    ensures a / b >= 0
  {
  }

  /** Euclidean division of naturals brackets the dividend. */
  lemma DivBounds(a: nat, b: nat)
    requires b > 0
    ensures (a / b) * b <= a < (a / b + 1) * b
  {
    var q, r := a / b, a % b;
    assert a == q * b + r;
    assert (q + 1) * b == q * b + b;
  }

  /** Integer floor square root, as `i32::isqrt`. */
  function Isqrt(n: nat): (r: nat)
    ensures r * r <= n < (r + 1) * (r + 1)
  {
    if n < 4 then
      (if n == 0 then 0 else 1)
    else
      var h := Isqrt(n / 4);
      IsqrtStep(n, h);
      if (2 * h + 1) * (2 * h + 1) <= n then 2 * h + 1 else 2 * h
  }

  /** Doubling the root of n / 4 gives a lower bound of the root of n that is off by at most one. */
  lemma IsqrtStep(n: nat, h: nat)
    requires h * h <= n / 4 < (h + 1) * (h + 1)
    ensures (2 * h) * (2 * h) <= n < (2 * h + 2) * (2 * h + 2)
  {
    var q := n / 4;
    assert 4 * q <= n < 4 * q + 4;
    assert (2 * h) * (2 * h) == 4 * (h * h);
    assert (2 * h + 2) * (2 * h + 2) == 4 * ((h + 1) * (h + 1));
    assert (h + 1) * (h + 1) >= q + 1;
  }

  /** Squaring is strictly monotone on naturals. */
  lemma SquareLess(a: nat, b: nat)
    requires a < b
    ensures a * a < b * b
  {
    assert a * a <= a * b;
    assert a * b < b * b;
  }

  /** `Isqrt(n) >= k` exactly when `n >= k * k`: comparing an integer distance against a
      constant is comparing the squared distance against the constant's square. */
  lemma IsqrtAtLeast(n: nat, k: nat)
    ensures Isqrt(n) >= k <==> n >= k * k
  {
    var r := Isqrt(n);
    if r >= k {
      if r > k { SquareLess(k, r); }
    } else {
      SquareLess(r + 1 - 1, k);
      if k > r + 1 { SquareLess(r + 1, k); }
    }
  }

  /** The floor square root is the unique r with r*r <= n < (r+1)*(r+1). */
  lemma IsqrtUnique(n: nat, r: nat)
    requires r * r <= n < (r + 1) * (r + 1)
    ensures Isqrt(n) == r
  {
    IsqrtAtLeast(n, r);
    IsqrtAtLeast(n, r + 1);
  }

  /** The square root of a sum of squares bounds each component: |dx| <= isqrt(dx*dx + dy*dy). */
  lemma IsqrtDominates(dx: int, dy: int)
    ensures Abs(dx) <= Isqrt(dx * dx + dy * dy)
  {
    assert Abs(dx) * Abs(dx) == dx * dx;
    assert dy * dy >= 0;
    IsqrtAtLeast(dx * dx + dy * dy, Abs(dx));
  }
}
