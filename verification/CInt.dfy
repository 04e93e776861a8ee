/** C's integer operators on mathematical integers, and the divisibility facts
    that the alignment arithmetic rests on. */
module CInt {

  type byte = x: int | 0 <= x < 256

  /** C's `/`: truncates toward zero. */
  function Quot(a: int, b: int): int
    requires b != 0
  {
    if a >= 0 then a / b else -((-a) / b)
  }

  /** C's `%`: has the sign of the dividend. */
  function Rem(a: int, b: int): int
    requires b != 0
  {
    a - b * Quot(a, b)
  }

  function Abs(x: int): nat {
    if x < 0 then -x else x
  }

  function Max(a: int, b: int): int {
    if a > b then a else b
  }

  function Min(a: int, b: int): int {
    if a < b then a else b
  }

  lemma MulMod(k: int, d: int)
    requires d > 0
    ensures (k * d) % d == 0
    ensures (d * k) % d == 0
    ensures (k * d) / d == k
  {
    DivModUnique(k * d, d, k, 0);
  }

  /** Euclidean division is the only one with a remainder in range. */
  lemma DivModUnique(n: int, d: int, q: int, r: int)
    requires d > 0 && 0 <= r < d && n == q * d + r
    ensures n / d == q && n % d == r
  {
    var q', r' := n / d, n % d;
    assert n == q' * d + r';
    assert (q - q') * d == r' - r;
    if q > q' {
      MulAtLeast(q - q', d);
    } else if q < q' {
      MulAtLeast(q' - q, d);
    }
  }

  lemma MulAtLeast(k: int, d: int)
    requires k >= 1 && d >= 0
    ensures k * d >= d
  {
    assert k * d == d + (k - 1) * d;
    MulNonNeg(k - 1, d);
  }

  lemma MulNonNeg(a: int, b: int)
    requires a >= 0 && b >= 0
    ensures a * b >= 0
  {
  }

  /** A number has a zero Euclidean remainder exactly when it is a multiple. */
  lemma ModZero(n: int, d: int)
    requires d > 0
    ensures n % d == 0 ==> n == (n / d) * d
  {
  }

  /** C's remainder is zero exactly when the Euclidean one is. */
  lemma RemZero(n: int, d: int)
    requires d > 0
    ensures Rem(n, d) == 0 <==> n % d == 0
    ensures n >= 0 ==> Rem(n, d) == n % d
    ensures n < 0 ==> Rem(n, d) == (if n % d == 0 then 0 else n % d - d)
  {
    if n >= 0 {
      assert n == d * (n / d) + n % d;
    } else {
      var q, r := (-n) / d, (-n) % d;
      assert -n == q * d + r;
      assert Rem(n, d) == n + d * q == -r;
      if r == 0 {
        DivModUnique(n, d, -q, 0);
      } else {
        assert n == (-q - 1) * d + (d - r);
        DivModUnique(n, d, -q - 1, d - r);
      }
    }
  }

  lemma SumMod(a: int, b: int, d: int)
    requires d > 0 && a % d == 0
    ensures (a + b) % d == b % d
    ensures (b - a) % d == b % d
  {
    var q, p, r := a / d, b / d, b % d;
    assert a == q * d && b == p * d + r;
    assert a + b == (q + p) * d + r;
    assert b - a == (p - q) * d + r;
    DivModUnique(a + b, d, q + p, r);
    DivModUnique(b - a, d, p - q, r);
  }

  /** Two multiples of `d` that differ differ by at least `d`. */
  lemma MultiplesApart(a: int, b: int, d: int)
    requires d > 0 && a % d == 0 && b % d == 0 && a < b
    ensures a + d <= b
  {
    SumMod(a, b, d);
    var k := (b - a) / d;
    assert b - a == k * d;
    assert k >= 1;
    MulAtLeast(k, d);
  }

  /** Linear combinations of multiples of `d` are multiples of `d`. */
  lemma ComboMod(x: int, a: int, y: int, b: int, d: int)
    requires d > 0 && a % d == 0 && b % d == 0
    ensures (x * a + y * b) % d == 0
  {
    ModZero(a, d);
    ModZero(b, d);
    ComboFactor(x, a / d, y, b / d, d);
    MulMod(x * (a / d) + y * (b / d), d);
  }

  lemma ComboFactor(x: int, m: int, y: int, n: int, d: int)
    ensures x * (m * d) + y * (n * d) == (x * m + y * n) * d
  {
  }

  lemma UnitFactor(k: int, g: int)
    requires g > 0 && k * g == g
    ensures k == 1
  {
    if k > 1 { MulAtLeast(k - 1, g); }
    if k < 1 { MulAtLeast(1 - k, g); }
  }

  lemma DivisionIs(a: int, b: int)
    requires b > 0
    ensures a == a / b * b + a % b && 0 <= a % b < b
  {
  }
}
