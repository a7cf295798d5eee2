/**
 How a service's nat chain spreads connections over its endpoints: every rule but the
 last takes a connection with probability 1/n, the last takes whatever is left.
 Probabilities are exact here.
 */
module LoadBalancing {

  function Pow(x: real, k: nat): real {
    if k == 0 then 1.0 else x * Pow(x, k - 1)
  }

  /** The probability each rule is given; none for the rule that takes everything. */
  function RuleProbability(n: nat, i: nat): real
    requires i < n
  {
    if i < n - 1 then 1.0 / (n as real) else 1.0
  }

  /** What reaches rule `i`: what every rule before it let pass. */
  function Reaching(n: nat, i: nat): real
    requires i <= n
  {
    if i == 0 then 1.0 else Reaching(n, i - 1) * (1.0 - RuleProbability(n, i - 1))
  }

  /** The share of the connections that endpoint `i` of `n` is sent. */
  function Share(n: nat, i: nat): real
    requires i < n
  {
    Reaching(n, i) * RuleProbability(n, i)
  }

  function SumOfShares(n: nat, k: nat): real
    requires k <= n
  {
    if k == 0 then 0.0 else SumOfShares(n, k - 1) + Share(n, k - 1)
  }

  lemma {:induction false} ReachingPower(n: nat, i: nat)
    requires i < n
    ensures Reaching(n, i) == Pow(1.0 - 1.0 / (n as real), i)
  {
    if i > 0 {
      ReachingPower(n, i - 1);
    }
  }

  /** The shares in closed form. */
  lemma ShareFormula(n: nat, i: nat)
    requires i < n
    ensures Share(n, i) == if i < n - 1 then Pow(1.0 - 1.0 / (n as real), i) / (n as real)
                           else Pow(1.0 - 1.0 / (n as real), n - 1)
  {
    ReachingPower(n, i);
    var p := Pow(1.0 - 1.0 / (n as real), i);
    assert p * (1.0 / (n as real)) == p / (n as real);
  }

  lemma {:induction false} SumAndRest(n: nat, k: nat)
    requires k <= n
    ensures SumOfShares(n, k) + Reaching(n, k) == 1.0
  {
    if k > 0 {
      SumAndRest(n, k - 1);
      var r, p := Reaching(n, k - 1), RuleProbability(n, k - 1);
      assert r * p + r * (1.0 - p) == r;
    }
  }

  /** Every connection is sent somewhere: the shares add up to 1. */
  lemma SharesSumToOne(n: nat)
    requires n > 0
    ensures SumOfShares(n, n) == 1.0
  {
    SumAndRest(n, n);
    assert Reaching(n, n) == Reaching(n, n - 1) * 0.0;
  }

  lemma {:induction false} PowPositive(x: real, k: nat)
    requires x > 0.0
    ensures Pow(x, k) > 0.0
  {
    if k > 0 {
      PowPositive(x, k - 1);
    }
  }

  lemma Reciprocal(n: nat)
    requires n > 0
    ensures 0.0 < 1.0 / (n as real) <= 1.0
    ensures n > 1 ==> 1.0 / (n as real) < 1.0
    ensures (n as real) * (1.0 / (n as real)) == 1.0
  {
  }

  /** Before the last endpoint the shares get strictly smaller. */
  lemma SharesDecrease(n: nat, i: nat)
    requires i + 1 < n - 1
    ensures Share(n, i + 1) < Share(n, i)
  {
    ShareFormula(n, i);
    ShareFormula(n, i + 1);
    Reciprocal(n);
    var x := 1.0 - 1.0 / (n as real);
    PowPositive(x, i);
    var p := Pow(x, i);
    assert Pow(x, i + 1) == x * p;
    Shrinks(x, p, n as real);
  }

  lemma Shrinks(x: real, p: real, n: real)
    requires 0.0 < x < 1.0 && p > 0.0 && n > 0.0
    ensures x * p / n < p / n
  {
    MulPositive(1.0 - x, p);
    assert (1.0 - x) * p == p - x * p;
    DivLess(x * p, p, n);
  }

  lemma MulPositive(a: real, b: real)
    ensures a > 0.0 && b > 0.0 ==> a * b > 0.0
    ensures a >= 0.0 && b >= 0.0 ==> a * b >= 0.0
  {
  }

  lemma DivLess(a: real, b: real, n: real)
    requires a < b && n > 0.0
    ensures a / n < b / n
  {
    MulPositive(b - a, 1.0 / n);
    assert (b - a) * (1.0 / n) == b / n - a / n;
  }

  /** All endpoints get the same share exactly when there are at most two. */
  lemma UniformUpToTwo(n: nat)
    requires n > 0
    ensures (forall i, j | 0 <= i < n && 0 <= j < n :: Share(n, i) == Share(n, j)) <==> n <= 2
  {
    if n == 1 {
    } else if n == 2 {
      ShareFormula(2, 0);
      ShareFormula(2, 1);
      assert Pow(0.5, 0) == 1.0 && Pow(0.5, 1) == 0.5;
    } else {
      SharesDecrease(n, 0);
    }
  }

  lemma {:induction false} PowSum(x: real, a: nat, b: nat)
    ensures Pow(x, a + b) == Pow(x, a) * Pow(x, b)
  {
    if a > 0 {
      PowSum(x, a - 1, b);
    }
  }

  lemma {:induction false} Bernoulli(x: real, k: nat)
    requires 0.0 <= x <= 1.0
    ensures Pow(1.0 - x, k) >= 1.0 - (k as real) * x
  {
    if k > 0 {
      Bernoulli(x, k - 1);
      var j := (k - 1) as real;
      BernoulliStep(x, Pow(1.0 - x, k - 1), j);
    }
  }

  lemma BernoulliStep(x: real, p: real, j: real)
    requires 0.0 <= x <= 1.0 && j >= 0.0 && p >= 1.0 - j * x
    ensures (1.0 - x) * p >= 1.0 - (j + 1.0) * x
  {
    MulPositive(1.0 - x, p - (1.0 - j * x));
    assert (1.0 - x) * (p - (1.0 - j * x)) == (1.0 - x) * p - (1.0 - x) * (1.0 - j * x);
    MulPositive(x, x);
    MulPositive(j, x * x);
    assert (1.0 - x) * (1.0 - j * x) == 1.0 - (j + 1.0) * x + j * (x * x);
  }

  lemma HalfPower(n: nat, k: nat)
    requires n > 0 && 2 * k <= n
    ensures Pow(1.0 - 1.0 / (n as real), k) >= 0.5
  {
    Reciprocal(n);
    Bernoulli(1.0 / (n as real), k);
    AtMostHalf(k as real, n as real);
  }

  lemma AtMostHalf(k: real, n: real)
    requires n > 0.0 && 2.0 * k <= n
    ensures k * (1.0 / n) <= 0.5
  {
    assert k * (1.0 / n) == k / n;
    assert k / n <= (n / 2.0) / n;
  }

  /** However many endpoints there are, the last one is sent at least a quarter of the
      connections. */
  lemma LastGetsAQuarter(n: nat)
    requires n > 0
    ensures Share(n, n - 1) >= 0.25
  {
    ShareFormula(n, n - 1);
    var a := (n - 1) / 2;
    var b := n - 1 - a;
    HalfPower(n, a);
    HalfPower(n, b);
    var x := 1.0 - 1.0 / (n as real);
    PowSum(x, a, b);
    Product(Pow(x, a), Pow(x, b));
  }

  lemma Product(p: real, q: real)
    requires p >= 0.5 && q >= 0.5
    ensures p * q >= 0.25
  {
  }

  /** With three or more endpoints the last one gets more than any other. */
  lemma LastGetsMost(n: nat, i: nat)
    requires n >= 3 && i < n - 1
    ensures Share(n, i) < Share(n, n - 1)
  {
    if n == 3 {
      ThreeEndpoints();
    } else if n == 4 {
      FourEndpoints();
    } else {
      ShareFormula(n, i);
      Reciprocal(n);
      var x := 1.0 - 1.0 / (n as real);
      LastGetsAQuarter(n);
      PowAtMostOne(x, i);
      BelowQuarter(Pow(x, i), n as real);
    }
  }

  lemma ThreeEndpoints()
    ensures Share(3, 0) == 1.0 / 3.0 && Share(3, 1) == 2.0 / 9.0 && Share(3, 2) == 4.0 / 9.0
  {
    ShareFormula(3, 0);
    ShareFormula(3, 1);
    ShareFormula(3, 2);
    var x := 2.0 / 3.0;
    assert Pow(x, 0) == 1.0 && Pow(x, 1) == x && Pow(x, 2) == x * x;
  }

  lemma FourEndpoints()
    ensures Share(4, 0) == 0.25 && Share(4, 1) == 0.1875 && Share(4, 2) == 0.140625 && Share(4, 3) == 0.421875
  {
    ShareFormula(4, 0);
    ShareFormula(4, 1);
    ShareFormula(4, 2);
    ShareFormula(4, 3);
    var x := 0.75;
    assert Pow(x, 0) == 1.0 && Pow(x, 1) == 0.75 && Pow(x, 2) == 0.5625 && Pow(x, 3) == 0.421875;
  }

  lemma {:induction false} PowAtMostOne(x: real, k: nat)
    requires 0.0 < x <= 1.0
    ensures 0.0 < Pow(x, k) <= 1.0
  {
    if k > 0 {
      PowAtMostOne(x, k - 1);
      var p := Pow(x, k - 1);
      MulPositive(x, p);
      MulPositive(x, 1.0 - p);
      assert x * (1.0 - p) == x - x * p;
    }
  }

  lemma BelowQuarter(p: real, n: real)
    requires 0.0 < p <= 1.0 && n >= 5.0
    ensures p / n < 0.25
  {
    assert p / n <= 1.0 / n;
    assert 1.0 / n <= 0.2;
  }
}
