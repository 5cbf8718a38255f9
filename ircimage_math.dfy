/** ircimage/math.go: integer modulo whose result is never negative, used to wrap
    pixel coordinates around a tile. Go's `/` and `%` truncate toward zero, so they are
    written out here as GoQuo and GoRem; a division by zero (a Go panic) is an Err
    result. */
module ImageMath {
  import opened Common

  function Abs(y: int): nat {
    if y < 0 then -y else y
  }

  /** Go's `x / y`: the quotient rounded toward zero. */
  function GoQuo(x: int, y: int): int
    requires y != 0
  {
    var q := Abs(x) / Abs(y);
    if (x < 0) == (y < 0) then q else -q
  }

  /** Go's `x % y`: |x| mod |y| with the sign of x. */
  function GoRem(x: int, y: int): (r: int)
    requires y != 0
    ensures x >= 0 ==> 0 <= r < Abs(y)
    ensures x < 0 ==> 0 <= -r < Abs(y)
  {
    var s := Abs(x) % Abs(y);
    if x < 0 then -s else s
  }

  /** The identity the Go specification demands of its quotient and remainder:
      x == (x / y) * y + x % y. */
  lemma GoDivision(x: int, y: int)
    requires y != 0
    ensures x == GoQuo(x, y) * y + GoRem(x, y)
  {
    var a: int, m: int := Abs(x), Abs(y);
    var q: int, s: int := a / m, a % m;
    assert a == q * m + s;
    if x >= 0 && y > 0 {
      assert GoQuo(x, y) * y == q * m;
    } else if x >= 0 {
      assert GoQuo(x, y) * y == (-q) * (-m);
      assert (-q) * (-m) == q * m;
    } else if y > 0 {
      assert GoQuo(x, y) * y == (-q) * m;
      assert (-q) * m == -(q * m);
    } else {
      assert GoQuo(x, y) * y == q * (-m);
      assert q * (-m) == -(q * m);
    }
  }

  /** The panic of GLSLModi. */
  datatype Panic = DivisionByZero

  /** GLSLModi: Go's remainder, moved up by |y| when it is negative. */
  function GLSLModi(x: int, y: int): (r: Result<int, Panic>)
    ensures r.Err? <==> y == 0
    ensures r.Ok? ==> 0 <= r.value < Abs(y)
  {
    if y == 0 then Err(DivisionByZero)
    else
      var r := GoRem(x, y);
      if r >= 0 then Ok(r)
      else if y > 0 then Ok(r + y)
      else Ok(r - y)
  }

  /** The number of times y fits between the result and x. */
  function GLSLQuo(x: int, y: int): int
    requires y != 0
  {
    if GoRem(x, y) >= 0 then GoQuo(x, y)
    else if y > 0 then GoQuo(x, y) - 1
    else GoQuo(x, y) + 1
  }

  /** x minus the result is a multiple of y. */
  lemma GLSLModiMultiple(x: int, y: int)
    requires y != 0
    ensures x - GLSLModi(x, y).value == GLSLQuo(x, y) * y
  {
    GoDivision(x, y);
    var q := GoQuo(x, y);
    assert (q - 1) * y == q * y - y;
    assert (q + 1) * y == q * y + y;
  }

  /** For x >= 0 and y > 0 the result is Go's own `x % y`. */
  lemma GLSLModiNonNegative(x: int, y: int)
    requires x >= 0 && y > 0
    ensures GLSLModi(x, y) == Ok(GoRem(x, y))
  {
  }

  lemma {:induction false} MulAtLeast(d: nat, m: nat)
    requires d >= 1
    ensures d * m >= m
  {
    if d > 1 {
      MulAtLeast(d - 1, m);
      assert d * m == (d - 1) * m + m;
    }
  }

  lemma AbsMul(a: int, b: int)
    ensures Abs(a * b) == Abs(a) * Abs(b)
  {
    if a < 0 && b >= 0 {
      assert a * b == -((-a) * b);
    } else if a >= 0 && b < 0 {
      assert a * b == -(a * (-b));
    } else if a < 0 && b < 0 {
      assert a * b == (-a) * (-b);
    }
  }

  /** A remainder in [0, |y|) with some quotient is the Euclidean remainder. */
  lemma EuclidUnique(x: int, y: int, k: int, r: int)
    requires y != 0 && x == k * y + r && 0 <= r < Abs(y)
    ensures r == x % y
  {
    var q := x / y;
    var s := x % y;
    assert x == q * y + s;
    var d := k - q;
    assert d * y == s - r;
    AbsMul(d, y);
    if d != 0 {
      MulAtLeast(Abs(d), Abs(y));
    }
  }

  /** So the result is the Euclidean remainder of x by y (Dafny's own `%`). */
  lemma GLSLModiIsEuclidean(x: int, y: int)
    requires y != 0
    ensures GLSLModi(x, y).value == x % y
  {
    GLSLModiMultiple(x, y);
    EuclidUnique(x, y, GLSLQuo(x, y), GLSLModi(x, y).value);
  }

  /** floor(x / y); Dafny's `/` is floor division for a positive divisor. */
  function FloorDiv(x: int, y: int): int
    requires y != 0
  {
    if y > 0 then x / y else (-x) / (-y)
  }

  /** GLSL's mod: x - y * floor(x / y); for a negative y its result is not positive. */
  function FloorMod(x: int, y: int): (r: int)
    requires y != 0
    ensures y > 0 ==> 0 <= r < y
    ensures y < 0 ==> y < r <= 0
  {
    var q := FloorDiv(x, y);
    assert y > 0 ==> x == q * y + x % y;
    assert y < 0 ==> -x == q * (-y) + (-x) % (-y) && q * (-y) == -(y * q);
    x - y * q
  }

  /** The result agrees with GLSL's mod for a positive y. For a negative y it is GLSL's
      result moved up by |y| (for x = 1, y = -3: 1 here, -2 in GLSL); the callers in
      this repository pass tile sizes, which are positive. */
  lemma GLSLModiVersusFloorMod(x: int, y: int)
    requires y != 0
    ensures y > 0 ==> GLSLModi(x, y).value == FloorMod(x, y)
    ensures y < 0 ==> GLSLModi(x, y).value == (if FloorMod(x, y) == 0 then 0 else FloorMod(x, y) - y)
  {
    GLSLModiIsEuclidean(x, y);
    var f := FloorMod(x, y);
    var q := FloorDiv(x, y);
    assert x == q * y + f;
    if y > 0 || f == 0 {
      EuclidUnique(x, y, q, f);
    } else {
      assert x == (q + 1) * y + (f - y);
      EuclidUnique(x, y, q + 1, f - y);
    }
  }
}
