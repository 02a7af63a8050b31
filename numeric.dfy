/** Python's numeric built-ins used by the allocation engine, on exact numbers:
    `int(x)` on a float (truncation toward zero), `round(x)` (round half to even),
    `a // b` (floor division) and `math.gcd`. */
module Numeric {

  /** `int(x)` for a float `x`: the integer part, truncating toward zero. */
  function Trunc(x: real): (r: int)
    ensures 0.0 <= x ==> r as real <= x < r as real + 1.0
    ensures x < 0.0 ==> r as real - 1.0 < x <= r as real
  {
    if x >= 0.0 then x.Floor else -((-x).Floor)
  }

  /** `round(x)` with no digits argument: nearest integer, ties to the even neighbour. */
  function RoundHalfEven(x: real): (r: int)
    ensures -0.5 <= x - r as real <= 0.5
    ensures (x - r as real == 0.5 || x - r as real == -0.5) ==> r % 2 == 0
  {
    var f := x.Floor;
    var d := x - f as real;
    if d < 0.5 then f
    else if d > 0.5 then f + 1
    else if f % 2 == 0 then f
    else f + 1
  }

  /** Python's `a // b`: the floor of the exact quotient. Dafny's own `/`
      is Euclidean and differs from it when `b` is negative. */
  function FloorDiv(a: int, b: int): (q: int)
    requires b != 0
    ensures b > 0 ==> b * q <= a < b * q + b
    ensures b < 0 ==> b * q >= a > b * q + b
  {
    if b > 0 then a / b else (-a) / (-b)
  }

  function Abs(x: int): nat
  {
    if x < 0 then -x else x
  }

  /** `d` divides `x`; only 0 is divisible by 0. */
  predicate Divides(d: int, x: int)
  {
    if d == 0 then x == 0 else x % d == 0
  }

  /** Euclid's algorithm on natural numbers. */
  function EuclidGcd(a: nat, b: nat): nat
    decreases b
  {
    if b == 0 then a else EuclidGcd(b, a % b)
  }

  /** `math.gcd(a, b)`: the non-negative greatest common divisor; `math.gcd(0, 0) == 0`. */
  function Gcd(a: int, b: int): nat
  {
    EuclidGcd(Abs(a), Abs(b))
  }

  lemma DividesMultiple(d: int, k: int)
    ensures Divides(d, d * k)
  {
    if d != 0 {
      var x := d * k;
      assert x == d * (x / d) + x % d;
      var r := x % d;
      assert 0 <= r < Abs(d);
      assert d * (k - x / d) == r;
      if k - x / d != 0 {
        MulAbsBound(d, k - x / d);
        assert false;
      }
    }
  }

  /** A non-zero multiple of `d` is at least as large as `d` in absolute value. */
  lemma MulAbsBound(d: int, k: int)
    requires k != 0
    ensures Abs(d * k) >= Abs(d)
  {
    AbsMul(d, k);
    MulPosBound(Abs(d), Abs(k));
  }

  lemma {:induction false} MulPosBound(a: nat, b: nat)
    requires b > 0
    ensures a * b >= a
  {
    if b > 1 {
      MulPosBound(a, b - 1);
      assert a * b == a * (b - 1) + a;
    }
  }

  lemma AbsMul(a: int, b: int)
    ensures Abs(a * b) == Abs(a) * Abs(b)
  {
    if a < 0 && b >= 0 {
      assert a * b == -((-a) * b);
    } else if a >= 0 && b < 0 {
      assert a * b == -(a * (-b));
    } else if a < 0 && b < 0 {
      assert a * b == (-a) * (-b);
    }
  }

  /** A divisor is given by its cofactor. */
  lemma DividesCofactor(d: int, x: int) returns (k: int)
    requires Divides(d, x)
    ensures x == d * k
  {
    if d == 0 {
      k := 0;
    } else {
      k := x / d;
      assert x == d * (x / d) + x % d;
    }
  }

  lemma DividesLinear(d: int, x: int, y: int, q: int)
    requires Divides(d, x) && Divides(d, y)
    ensures Divides(d, q * x + y)
  {
    var kx := DividesCofactor(d, x);
    var ky := DividesCofactor(d, y);
    assert q * x + y == d * (q * kx + ky) by {
      assert q * x == d * (q * kx);
    }
    DividesMultiple(d, q * kx + ky);
  }

  lemma DividesNeg(d: int, x: int)
    requires Divides(d, x)
    ensures Divides(d, -x) && Divides(d, Abs(x))
  {
    DividesLinear(d, x, 0, -2);
    assert -2 * x + 0 == -x - x;
    DividesLinear(d, x, 0, -1);
  }

  lemma DividesAbs(d: int, x: int)
    requires Divides(d, Abs(x))
    ensures Divides(d, x)
  {
    if x < 0 {
      DividesNeg(d, Abs(x));
    }
  }

  /** A non-zero number has no divisor larger than itself. */
  lemma DividesBound(d: int, x: int)
    requires Divides(d, x) && x != 0
    ensures Abs(d) <= Abs(x)
  {
    var k := DividesCofactor(d, x);
    MulAbsBound(d, k);
  }

  /** Divisibility survives multiplying both sides by the same factor. */
  lemma DividesScale(d: int, x: int, g: int)
    requires Divides(d, x)
    ensures Divides(d * g, x * g)
  {
    var k := DividesCofactor(d, x);
    assert x * g == (d * g) * k;
    DividesMultiple(d * g, k);
  }

  lemma {:induction false} EuclidGcdDivides(a: nat, b: nat)
    ensures Divides(EuclidGcd(a, b), a) && Divides(EuclidGcd(a, b), b)
    decreases b
  {
    var g := EuclidGcd(a, b);
    if b == 0 {
      DividesMultiple(a, 1);
    } else {
      EuclidGcdDivides(b, a % b);
      assert a == (a / b) * b + a % b;
      DividesLinear(g, b, a % b, a / b);
    }
  }

  lemma {:induction false} EuclidGcdGreatest(a: nat, b: nat, d: int)
    requires Divides(d, a) && Divides(d, b)
    ensures Divides(d, EuclidGcd(a, b))
    decreases b
  {
    if b != 0 {
      assert a % b == (-(a / b)) * b + a;
      DividesLinear(d, b, a, -(a / b));
      EuclidGcdGreatest(b, a % b, d);
    }
  }

  lemma {:induction false} EuclidGcdZero(a: nat, b: nat)
    ensures EuclidGcd(a, b) == 0 <==> a == 0 && b == 0
    decreases b
  {
    if b != 0 {
      EuclidGcdDivides(a, b);
    }
  }

  /** `math.gcd` is a common divisor of its arguments, every common divisor
      divides it, and it is 0 exactly when both arguments are 0. */
  lemma GcdSpec(a: int, b: int)
    ensures Divides(Gcd(a, b), a) && Divides(Gcd(a, b), b)
    ensures forall d :: Divides(d, a) && Divides(d, b) ==> Divides(d, Gcd(a, b))
    ensures Gcd(a, b) == 0 <==> a == 0 && b == 0
  {
    EuclidGcdDivides(Abs(a), Abs(b));
    DividesAbs(Gcd(a, b), a);
    DividesAbs(Gcd(a, b), b);
    forall d | Divides(d, a) && Divides(d, b) ensures Divides(d, Gcd(a, b)) {
      DividesNeg(d, a);
      DividesNeg(d, b);
      EuclidGcdGreatest(Abs(a), Abs(b), d);
    }
    EuclidGcdZero(Abs(a), Abs(b));
  }
}
