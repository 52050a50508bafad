/**
 * C++ integer arithmetic the game relies on, written out over Dafny's
 * unbounded integers: `/` and `%` that truncate toward zero, and the
 * wrap-around of a store into `uint8_t` or `unsigned int`.
 */
module CInts {

  /** A value that fits in `uint8_t`. */
  type Byte = b: int | 0 <= b < 256

  const UINT32_MODULUS: int := 0x1_0000_0000

  /** A value that fits in `unsigned int` (32 bits on the game's targets). */
  type UInt32 = n: int | 0 <= n < UINT32_MODULUS

  /** Conversion of any int to `uint8_t`: reduction modulo 256. */
  function ToByte(x: int): (b: Byte)
    ensures 0 <= x < 256 ==> b == x
    ensures (x - b) % 256 == 0
  {
    x % 256
  }

  /** Conversion of any int to `unsigned int`: reduction modulo 2^32. */
  function ToUInt32(x: int): (n: UInt32)
    ensures 0 <= x < UINT32_MODULUS ==> n == x
    ensures (x - n) % UINT32_MODULUS == 0
  {
    x % UINT32_MODULUS
  }

  /** C++ `a / b`: the quotient truncated toward zero. */
  function CDiv(a: int, b: int): (q: int)
    requires b != 0
    ensures a >= 0 && b > 0 ==> q == a / b
    ensures b > 0 && a < 0 ==> q == -((-a) / b)
  {
    if (a >= 0) == (b > 0) then (if a >= 0 then a / b else (-a) / (-b))
    else -(Abs(a) / Abs(b))
  }

  /** C++ `a % b`: the remainder that takes the sign of `a`. */
  function CRem(a: int, b: int): (r: int)
    requires b != 0
    ensures a == CDiv(a, b) * b + r
    ensures a >= 0 ==> 0 <= r < Abs(b)
    ensures a < 0 ==> -Abs(b) < r <= 0
  {
    CDivRem(a, b);
    a - CDiv(a, b) * b
  }

  function Abs(x: int): (r: int)
    ensures r >= 0 && (r == x || r == -x)
  {
    if x < 0 then -x else x
  }

  function Max(a: int, b: int): (m: int)
    ensures m >= a && m >= b && (m == a || m == b)
  {
    if a >= b then a else b
  }

  function Min(a: int, b: int): (m: int)
    ensures m <= a && m <= b && (m == a || m == b)
  {
    if a <= b then a else b
  }

  lemma CDivRem(a: int, b: int)
    requires b != 0
    ensures a >= 0 ==> 0 <= a - CDiv(a, b) * b < Abs(b)
    ensures a < 0 ==> -Abs(b) < a - CDiv(a, b) * b <= 0
  {
    var q := Abs(a) / Abs(b);
    var r := Abs(a) % Abs(b);
    assert Abs(a) == q * Abs(b) + r && 0 <= r < Abs(b);
    if a >= 0 && b > 0 {
      assert CDiv(a, b) == q;
    } else if a < 0 && b < 0 {
      assert CDiv(a, b) == q;
      assert CDiv(a, b) * b == -(q * Abs(b));
    } else if a >= 0 {
      assert CDiv(a, b) == -q;
      assert CDiv(a, b) * b == q * Abs(b);
    } else {
      assert CDiv(a, b) == -q;
      assert CDiv(a, b) * b == -(q * Abs(b));
    }
  }

  /** The Euclidean remainder is determined by any decomposition x == q*w + r. */
  lemma ModUnique(x: int, w: int, q: int, r: int)
    requires w > 0 && 0 <= r < w && x == q * w + r
    ensures x % w == r && x / w == q
  {
    var q0, r0 := x / w, x % w;
    assert x == q0 * w + r0 && 0 <= r0 < w;
    var d := q - q0;
    assert d * w == r0 - r;
    if d > 0 {
      MulAtLeast(d, w);
      assert false;
    } else if d < 0 {
      MulAtLeast(-d, w);
      assert false;
    }
  }

  lemma MulAtLeast(k: int, w: int)
    requires k >= 1 && w > 0
    ensures k * w >= w
  {
    var i := 1;
    while i < k
      invariant 1 <= i <= k && i * w >= w
    {
      i := i + 1;
    }
  }

  /** Adding a multiple of the modulus leaves the Euclidean remainder alone. */
  lemma ModAddMultiple(x: int, w: int, k: int)
    requires w > 0
    ensures (x + k * w) % w == x % w
  {
    ModUnique(x + k * w, w, x / w + k, x % w);
  }

  /** Integer division by a positive number keeps order. */
  lemma DivMonotone(a: int, b: int, c: int)
    requires 0 <= a <= b && c > 0
    ensures a / c <= b / c
  {
    if a / c > b / c {
      MulLeq(b / c + 1, a / c, c);
    }
  }

  /** Multiplying by a positive number keeps order. */
  lemma MulLeq(x: int, y: int, c: int)
    requires x <= y && c > 0
    ensures x * c <= y * c
  {
    assert y * c - x * c == (y - x) * c;
  }
}
