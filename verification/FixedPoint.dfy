/** Full-precision `mulDiv` with explicit rounding (MathLib.sol, Uint256Math.cpp) and the
    facts about directed rounding that every accounting proof of the project rests on. */
module FixedPoint {
  import opened Results

  const WAD: nat := 1_000_000_000_000_000_000
  const RAY: nat := 1_000_000_000_000_000_000_000_000_000
  const BPS: nat := 10_000
  const ORACLE_PRICE_SCALE: nat := 100_000_000
  const MAX_UINT256: nat := 0xffffffff_ffffffff_ffffffff_ffffffff_ffffffff_ffffffff_ffffffff_ffffffff

  /** The greatest 64-bit number. */
  const MAX_UINT64: nat := 0xffff_ffff_ffff_ffff

  /** The exact floor of x * y / d. */
  function Floor(x: nat, y: nat, d: nat): nat
    requires d > 0
  {
    x * y / d
  }

  /** The exact ceiling of x * y / d. */
  function Ceil(x: nat, y: nat, d: nat): nat
    requires d > 0
  {
    x * y / d + (if x * y % d == 0 then 0 else 1)
  }

  // Checked 256-bit arithmetic -------------------------------------------------------------

  function Fit(x: nat): Result<nat> {
    if x <= MAX_UINT256 then Success(x) else Failure(Overflow)
  }

  function Add(x: nat, y: nat): Result<nat> {
    Fit(x + y)
  }

  function Sub(x: nat, y: nat): Result<nat> {
    if y <= x then Success(x - y) else Failure(Underflow)
  }

  function Mul(x: nat, y: nat): Result<nat> {
    Fit(x * y)
  }

  function MulDivDown(x: nat, y: nat, d: nat): Result<nat> {
    if d == 0 then Failure(DivisionByZero) else Fit(Floor(x, y, d))
  }

  function MulDivUp(x: nat, y: nat, d: nat): Result<nat> {
    if d == 0 then Failure(DivisionByZero) else Fit(Ceil(x, y, d))
  }

  function Min(x: nat, y: nat): nat {
    if x < y then x else y
  }

  // Rounding facts -------------------------------------------------------------------------

  lemma MulMono(a: int, b: int, c: int)
    requires a <= b && 0 <= c
    ensures a * c <= b * c
  {
  }

  /** Multiplication by a positive factor can be cancelled. */
  lemma MulCancel(a: int, b: int, c: int)
    requires 0 < c && a * c < (b + 1) * c
    ensures a <= b
  {
    if a > b {
      MulMono(b + 1, a, c);
    }
  }

  lemma FloorBounds(x: nat, y: nat, d: nat)
    requires d > 0
    ensures Floor(x, y, d) * d <= x * y < (Floor(x, y, d) + 1) * d
  {
    var n := x * y;
    assert n == d * (n / d) + n % d;
  }

  lemma CeilBounds(x: nat, y: nat, d: nat)
    requires d > 0
    ensures x * y <= Ceil(x, y, d) * d < x * y + d
    ensures Floor(x, y, d) <= Ceil(x, y, d) <= Floor(x, y, d) + 1
  {
    var n := x * y;
    var q := n / d;
    assert n == d * q + n % d;
    assert (q + 1) * d == d * q + d;
  }

  /** The floor is the greatest q with q * d at most the product. */
  lemma FloorGreatest(x: nat, y: nat, d: nat, q: int)
    requires d > 0 && q * d <= x * y
    ensures q <= Floor(x, y, d)
  {
    hide Floor;
    FloorBounds(x, y, d);
    MulCancel(q, Floor(x, y, d), d);
  }

  /** The ceiling is the least q with q * d at least the product. */
  lemma CeilLeast(x: nat, y: nat, d: nat, q: int)
    requires d > 0 && x * y <= q * d
    ensures Ceil(x, y, d) <= q
  {
    hide Ceil;
    CeilBounds(x, y, d);
    assert (q + 1) * d == q * d + d;
    MulCancel(Ceil(x, y, d), q, d);
  }

  lemma FloorMono(x: nat, y: nat, x': nat, y': nat, d: nat)
    requires d > 0 && x <= x' && y <= y'
    ensures Floor(x, y, d) <= Floor(x', y', d)
  {
    hide Floor;
    FloorBounds(x, y, d);
    MulMono(x, x', y);
    MulMono(y, y', x');
    assert x * y <= x' * y';
    FloorGreatest(x', y', d, Floor(x, y, d));
  }

  lemma CeilMono(x: nat, y: nat, x': nat, y': nat, d: nat)
    requires d > 0 && x <= x' && y <= y'
    ensures Ceil(x, y, d) <= Ceil(x', y', d)
  {
    hide Ceil;
    CeilBounds(x', y', d);
    MulMono(x, x', y);
    MulMono(y, y', x');
    assert x * y <= x' * y';
    CeilLeast(x, y, d, Ceil(x', y', d));
  }

  /** q1 * d + q2 * d stays below (q3 + 1) * d only if q1 + q2 is at most q3. */
  lemma SumCancel(q1: int, q2: int, q3: int, d: int)
    requires 0 < d && q1 * d + q2 * d < q3 * d + d
    ensures q1 + q2 <= q3
  {
    assert (q1 + q2) * d == q1 * d + q2 * d;
    assert (q3 + 1) * d == q3 * d + d;
    MulCancel(q1 + q2, q3, d);
  }

  /** Adding b to a scaled balance moves its rounded value by b's own value, rounded one way or the other. */
  lemma SplitSum(a: nat, b: nat, i: nat, d: nat)
    requires d > 0
    ensures Floor(a, i, d) + Floor(b, i, d) <= Floor(a + b, i, d) <= Floor(a, i, d) + Ceil(b, i, d)
    ensures Ceil(a, i, d) + Floor(b, i, d) <= Ceil(a + b, i, d) <= Ceil(a, i, d) + Ceil(b, i, d)
  {
    hide Floor, Ceil;
    assert (a + b) * i == a * i + b * i;
    FloorBounds(a, i, d);
    FloorBounds(b, i, d);
    FloorBounds(a + b, i, d);
    CeilBounds(a, i, d);
    CeilBounds(b, i, d);
    CeilBounds(a + b, i, d);
    SplitProducts(a * i, b * i, Floor(a, i, d), Floor(b, i, d), Floor(a + b, i, d),
                  Ceil(a, i, d), Ceil(b, i, d), Ceil(a + b, i, d), d);
  }

  lemma SplitProducts(na: int, nb: int, fa: int, fb: int, fc: int, ca: int, cb: int, cc: int, d: int)
    requires 0 < d
    requires fa * d <= na < (fa + 1) * d && fb * d <= nb < (fb + 1) * d && fc * d <= na + nb < (fc + 1) * d
    requires na <= ca * d < na + d && nb <= cb * d < nb + d && na + nb <= cc * d < na + nb + d
    ensures fa + fb <= fc <= fa + cb && ca + fb <= cc <= ca + cb
  {
    assert (fa + 1) * d == fa * d + d && (fb + 1) * d == fb * d + d && (fc + 1) * d == fc * d + d;
    assert (-fa) * d == -(fa * d) && (-ca) * d == -(ca * d);
    SumCancel(fa, fb, fc, d);
    SumCancel(fc, -fa, cb, d);
    SumCancel(ca, fb, cc, d);
    SumCancel(cc, -ca, cb, d);
  }

  /** Scaling an amount down and reading it back never gains; scaling it up never loses. */
  lemma RoundTrip(amount: nat, i: nat)
    requires i > 0
    ensures Floor(amount, RAY, i) * i <= amount * RAY <= Ceil(amount, RAY, i) * i
    ensures Ceil(Floor(amount, RAY, i), i, RAY) <= amount <= Floor(Ceil(amount, RAY, i), i, RAY)
  {
    hide Floor, Ceil;
    FloorBounds(amount, RAY, i);
    CeilBounds(amount, RAY, i);
    CeilLeast(Floor(amount, RAY, i), i, RAY, amount);
    FloorGreatest(Ceil(amount, RAY, i), i, RAY, amount);
  }

  lemma ZeroProduct(y: nat, d: nat)
    requires d > 0
    ensures Floor(0, y, d) == 0 && Ceil(0, y, d) == 0
  {
  }

  lemma CeilPositive(x: nat, y: nat, d: nat)
    requires d > 0 && x > 0 && y > 0
    ensures Ceil(x, y, d) > 0
  {
    CeilBounds(x, y, d);
    assert x * y > 0;
  }
}
