/** `SettleUpClient._compute_weights`: turn per-member amounts into the smallest
    integer weights with the same proportions. Every amount is first scaled by 100
    and rounded (two decimal places kept), then all values are divided by their
    greatest common divisor. */
module Weights {
  import opened Numeric

  /** Why the reduction fails in the source: `reduce` over an empty sequence
      raises, and an all-zero input makes the divisor 0. */
  datatype WeightError = EmptyShares | ZeroDivisor

  datatype Result<T> = Success(value: T) | Failure(error: WeightError)

  /** `[int(round(s * 100)) for s in shares]`. */
  function Scale(shares: seq<real>): (scaled: seq<int>)
    ensures |scaled| == |shares|
    ensures forall i :: 0 <= i < |shares| ==> -0.5 <= 100.0 * shares[i] - scaled[i] as real <= 0.5
    ensures forall i :: 0 <= i < |shares| && shares[i] == 0.0 ==> scaled[i] == 0
    ensures forall i :: 0 <= i < |shares| && shares[i] >= 0.0 ==> scaled[i] >= 0
  {
    seq(|shares|, i requires 0 <= i < |shares| => RoundHalfEven(100.0 * shares[i]))
  }

  /** `reduce(math.gcd, xs)`: a left fold of `Gcd` seeded with the first element,
      so a one-element sequence yields that element unchanged. */
  function GcdAll(xs: seq<int>): (g: int)
    requires |xs| > 0
    ensures |xs| > 1 ==> g >= 0
    ensures forall i :: 0 <= i < |xs| ==> Divides(g, xs[i])
    ensures g == 0 <==> forall i :: 0 <= i < |xs| ==> xs[i] == 0
  {
    if |xs| == 1 then
      DividesMultiple(xs[0], 1);
      xs[0]
    else
      var init := xs[..|xs| - 1];
      var h := GcdAll(init);
      GcdSpec(h, xs[|xs| - 1]);
      var g := Gcd(h, xs[|xs| - 1]);
      assert forall i :: 0 <= i < |xs| - 1 ==> Divides(g, xs[i]) by {
        forall i | 0 <= i < |xs| - 1 ensures Divides(g, xs[i]) {
          assert init[i] == xs[i];
          DividesTransitive(g, h, xs[i]);
        }
      }
      assert (forall i :: 0 <= i < |xs| ==> xs[i] == 0) <==>
             (forall i :: 0 <= i < |init| ==> init[i] == 0) && xs[|xs| - 1] == 0 by {
        assert forall i :: 0 <= i < |init| ==> init[i] == xs[i];
      }
      g
  }

  lemma DividesTransitive(a: int, b: int, c: int)
    requires Divides(a, b) && Divides(b, c)
    ensures Divides(a, c)
  {
    var k := DividesCofactor(b, c);
    var j := DividesCofactor(a, b);
    assert c == a * (j * k);
    DividesMultiple(a, j * k);
  }

  /** Every common divisor of the values divides their `reduce(math.gcd, ...)`. */
  lemma {:induction false} GcdAllGreatest(xs: seq<int>, d: int)
    requires |xs| > 0
    requires forall i :: 0 <= i < |xs| ==> Divides(d, xs[i])
    ensures Divides(d, GcdAll(xs))
  {
    if |xs| > 1 {
      var init := xs[..|xs| - 1];
      assert forall i :: 0 <= i < |init| ==> init[i] == xs[i];
      GcdAllGreatest(init, d);
      GcdSpec(GcdAll(init), xs[|xs| - 1]);
    }
  }

  /** The body of `_compute_weights`, with its two failure modes made explicit. */
  function ComputeWeights(shares: seq<real>): (r: Result<seq<int>>)
    ensures r.Failure? <==> |shares| == 0 || forall i :: 0 <= i < |shares| ==> Scale(shares)[i] == 0
    ensures r == Failure(EmptyShares) <==> |shares| == 0
    ensures r.Success? ==> |r.value| == |shares|
  {
    if |shares| == 0 then Failure(EmptyShares)
    else
      var scaled := Scale(shares);
      var g := GcdAll(scaled);
      if g == 0 then Failure(ZeroDivisor)
      else Success(seq(|scaled|, i requires 0 <= i < |scaled| => FloorDiv(scaled[i], g)))
  }

  /** Each weight times the common divisor gives back the scaled amount exactly,
      so the weights keep the proportions of the scaled amounts. */
  lemma WeightsExact(shares: seq<real>)
    requires ComputeWeights(shares).Success?
    ensures var w, s := ComputeWeights(shares).value, Scale(shares);
            |w| == |s| &&
            (forall i :: 0 <= i < |w| ==> w[i] * GcdAll(s) == s[i]) &&
            (forall i, j :: 0 <= i < |w| && 0 <= j < |w| ==> w[i] * s[j] == w[j] * s[i])
  {
    var w, s := ComputeWeights(shares).value, Scale(shares);
    var g := GcdAll(s);
    forall i | 0 <= i < |w| ensures w[i] * g == s[i] {
      ExactQuotient(s[i], g);
    }
    forall i, j | 0 <= i < |w| && 0 <= j < |w| ensures w[i] * s[j] == w[j] * s[i] {
      CrossProduct(w[i], w[j], g);
    }
  }

  /** Floor division by an exact divisor leaves no remainder. */
  lemma ExactQuotient(x: int, g: int)
    requires g != 0 && Divides(g, x)
    ensures FloorDiv(x, g) * g == x
  {
    var k := DividesCofactor(g, x);
    var q := FloorDiv(x, g);
    var d := k - q;
    assert x - g * q == g * d;
    if d != 0 {
      MulAbsBound(g, d);
      assert false;
    }
  }

  lemma CrossProduct(a: int, b: int, g: int)
    ensures a * (b * g) == b * (a * g)
  {
  }

  lemma SignOfProduct(w: int, g: int)
    requires g > 0
    ensures w * g > 0 <==> w > 0
    ensures w * g >= 0 <==> w >= 0
  {
    if w > 0 {
      MulAbsBound(g, w);
    } else if w < 0 {
      MulAbsBound(g, w);
      assert g * w == -(g * (-w));
    }
  }

  /** The weights cannot be reduced further: their own GCD is 1. */
  lemma WeightsMinimal(shares: seq<real>)
    requires ComputeWeights(shares).Success?
    ensures GcdAll(ComputeWeights(shares).value) == 1
  {
    var w, s := ComputeWeights(shares).value, Scale(shares);
    var g := GcdAll(s);
    WeightsExact(shares);
    var h := GcdAll(w);
    var j :| 0 <= j < |s| && s[j] != 0;
    assert w[j] != 0;
    forall i | 0 <= i < |s| ensures Divides(h * g, s[i]) {
      DividesScale(h, w[i], g);
    }
    GcdAllGreatest(s, h * g);
    DividesBound(h * g, g);
    UnitFactor(g, h);
    if |w| == 1 {
      assert h == w[0];
      OneFactor(w[0], g);
    }
  }

  /** A non-zero `h` with `|h * g| <= |g|` is 1 or -1. */
  lemma UnitFactor(g: int, h: int)
    requires g != 0 && h != 0 && Abs(h * g) <= Abs(g)
    ensures h == 1 || h == -1
  {
    AbsMul(h, g);
    var a, b := Abs(g), Abs(h);
    if b != 1 {
      assert a * b == a * (b - 1) + a;
      MulAbsBound(a, b - 1);
    }
  }

  lemma OneFactor(a: int, g: int)
    requires g != 0 && a * g == g
    ensures a == 1
  {
    assert (a - 1) * g == 0;
  }

  /** A zero share gets weight 0; with non-negative shares every weight is
      non-negative, and positive exactly when the rounded, scaled amount is. */
  lemma WeightSign(shares: seq<real>)
    requires ComputeWeights(shares).Success?
    requires forall i :: 0 <= i < |shares| ==> shares[i] >= 0.0
    ensures var w := ComputeWeights(shares).value;
            forall i :: 0 <= i < |w| ==>
              (shares[i] == 0.0 ==> w[i] == 0) &&
              w[i] >= 0 &&
              (w[i] > 0 <==> Scale(shares)[i] > 0)
  {
    var w, s := ComputeWeights(shares).value, Scale(shares);
    var g := GcdAll(s);
    WeightsExact(shares);
    assert g > 0 by {
      if |s| == 1 {
        assert s[0] >= 0;
      }
    }
    forall i | 0 <= i < |w| ensures w[i] >= 0 && (w[i] > 0 <==> s[i] > 0) {
      SignOfProduct(w[i], g);
    }
  }

  /** The example of the source's docstring, `[36, 64]` to `[9, 16]`, under the
      scaling by 100. */
  lemma DocExample()
    ensures ComputeWeights([36.0, 64.0]) == Success([9, 16])
  {
    var s := Scale([36.0, 64.0]);
    assert s[0] == RoundHalfEven(3600.0) == 3600;
    assert s[1] == RoundHalfEven(6400.0) == 6400;
    assert s == [3600, 6400];
    assert GcdAll(s) == 400 by {
      assert s[..1] == [3600];
      assert EuclidGcd(3600, 6400) == EuclidGcd(6400, 3600);
      assert EuclidGcd(6400, 3600) == EuclidGcd(3600, 2800);
      assert EuclidGcd(3600, 2800) == EuclidGcd(2800, 800);
      assert EuclidGcd(2800, 800) == EuclidGcd(800, 400);
      assert EuclidGcd(800, 400) == EuclidGcd(400, 0);
    }
    assert FloorDiv(3600, 400) == 9 && FloorDiv(6400, 400) == 16;
    var w := ComputeWeights([36.0, 64.0]).value;
    assert |w| == 2 && w[0] == 9 && w[1] == 16;
    assert w == [9, 16];
  }

  /** Two equal amounts reduce to equal unit weights. */
  lemma EqualSharesExample()
    ensures ComputeWeights([99.0, 99.0]) == Success([1, 1])
  {
    var s := Scale([99.0, 99.0]);
    assert s[0] == RoundHalfEven(9900.0) == 9900;
    assert s[1] == RoundHalfEven(9900.0) == 9900;
    assert s == [9900, 9900];
    assert GcdAll(s) == 9900 by {
      assert s[..1] == [9900];
      assert EuclidGcd(9900, 9900) == EuclidGcd(9900, 0);
    }
    assert FloorDiv(9900, 9900) == 1;
    var w := ComputeWeights([99.0, 99.0]).value;
    assert |w| == 2 && w[0] == 1 && w[1] == 1;
    assert w == [1, 1];
  }
}
