/** `combi` of the example RPC server: a binomial coefficient by two loops. */
module Combi {
  /** Pascal's triangle. */
  function Binomial(n: nat, k: nat): nat {
    if k == 0 then 1
    else if n == 0 then 0
    else Binomial(n - 1, k - 1) + Binomial(n - 1, k)
  }

  /** The value asked for: 0 outside the triangle. */
  function Combinations(n: int, k: int): nat {
    if k < 0 || n < k then 0 else Binomial(n, k)
  }

  /** n (n - 1) ... (n - k + 1), which the first loop computes. */
  function Falling(n: nat, k: nat): nat {
    if k == 0 then 1
    else if n < k then 0
    else Falling(n, k - 1) * (n - (k - 1))
  }

  /** i (i + 1) ... k, which is left to divide by from `i` on. */
  function Product(i: nat, k: nat): (p: nat)
    ensures i > 0 ==> p > 0
    decreases k + 1 - i
  {
    if i > k then 1 else i * Product(i + 1, k)
  }

  // Arithmetic.

  lemma Associates(a: int, b: int, c: int)
    ensures a * b * c == a * (b * c)
  {
  }

  lemma Distributes(a: int, b: int, c: int)
    ensures (a + b) * c == a * c + b * c && c * (a + b) == c * a + c * b
  {
  }

  lemma Grows(a: nat, b: int)
    requires b >= 1
    ensures a <= a * b && (a > 0 ==> a * b > 0)
  {
    Distributes(1, b - 1, a);
    Positive(a, b - 1);
  }

  lemma Positive(a: nat, b: nat)
    ensures a * b >= 0
  {
  }

  lemma DivideExactly(i: nat, q: nat)
    requires i > 0
    ensures i * q / i == q && i * q % i == 0 && q <= i * q
  {
    var d, r := i * q / i, i * q % i;
    assert i * q == i * d + r && 0 <= r < i;
    Distributes(q, -d, i);
    if q > d {
      Grows(i, q - d);
      assert false;
    } else if q < d {
      Grows(i, d - q);
      assert false;
    }
    Grows(q, i);
  }

  // The falling product.

  lemma FallingStep(n: nat, k: nat)
    requires k < n
    ensures Falling(n, k + 1) == Falling(n, k) * (n - k)
  {
    hide Falling;
    FallingIs(n, k + 1);
  }

  lemma FallingIs(n: nat, k: nat)
    requires 0 < k <= n
    ensures Falling(n, k) == Falling(n, k - 1) * (n - (k - 1))
  {
  }

  lemma FallingZero(n: nat)
    ensures Falling(n, 0) == 1
  {
  }

  lemma {:induction false} FallingHead(n: nat, k: nat)
    requires 0 < k <= n
    ensures Falling(n, k) == n * Falling(n - 1, k - 1)
  {
    hide Falling;
    FallingIs(n, k);
    if k == 1 {
      FallingZero(n);
      FallingZero(n - 1);
    } else {
      FallingHead(n, k - 1);
      FallingIs(n - 1, k - 1);
      Associates(n, Falling(n - 1, k - 2), n - (k - 1));
    }
  }

  lemma {:induction false} AboveTriangle(n: nat, k: nat)
    requires n < k
    ensures Binomial(n, k) == 0 && Falling(n, k) == 0
  {
    if n > 0 {
      AboveTriangle(n - 1, k - 1);
      AboveTriangle(n - 1, k);
    }
  }

  lemma {:induction false} ProductTail(i: nat, k: nat)
    requires i <= k
    ensures Product(i, k + 1) == Product(i, k) * (k + 1)
    decreases k - i
  {
    hide Product;
    ProductIs(i, k);
    ProductIs(i, k + 1);
    if i < k {
      ProductTail(i + 1, k);
      Associates(i, Product(i + 1, k), k + 1);
    } else {
      ProductIs(k + 1, k + 1);
      ProductEmpty(k + 1, k);
      ProductEmpty(k + 2, k + 1);
    }
  }

  lemma ProductIs(i: nat, k: nat)
    requires i <= k
    ensures Product(i, k) == i * Product(i + 1, k)
  {
  }

  lemma ProductEmpty(i: nat, k: nat)
    requires i > k
    ensures Product(i, k) == 1
  {
  }

  lemma ProductFrom1(k: nat)
    ensures Product(1, k + 1) == Product(1, k) * (k + 1)
  {
    hide Product;
    if k == 0 {
      ProductIs(1, 1);
      ProductEmpty(2, 1);
      ProductEmpty(1, 0);
    } else {
      ProductTail(1, k);
    }
  }

  lemma BinomialIs(n: nat, k: nat)
    requires 0 < k <= n
    ensures Binomial(n, k) == Binomial(n - 1, k - 1) + Binomial(n - 1, k)
  {
  }

  lemma BinomialZero(n: nat)
    ensures Binomial(n, 0) == 1
  {
  }

  /** The falling product is the coefficient times k!. */
  lemma {:induction false} FallingIsBinomial(n: nat, k: nat)
    ensures Falling(n, k) == Binomial(n, k) * Product(1, k)
  {
    hide Falling, Binomial, Product;
    if k > n {
      AboveTriangle(n, k);
    } else if k == 0 {
      FallingZero(n);
      BinomialZero(n);
      ProductEmpty(1, 0);
    } else {
      FallingIsBinomial(n - 1, k - 1);
      FallingIsBinomial(n - 1, k);
      FallingHead(n, k);
      BinomialIs(n, k);
      ProductFrom1(k - 1);
      NextFalling(n, k);
      var f := Falling(n - 1, k - 1);
      Distributes(Binomial(n - 1, k - 1), Binomial(n - 1, k), Product(1, k));
      Associates(Binomial(n - 1, k - 1), Product(1, k - 1), k);
      Distributes(k, n - k, f);
    }
  }

  lemma NextFalling(n: nat, k: nat)
    requires 0 < k <= n
    ensures Falling(n - 1, k) == Falling(n - 1, k - 1) * (n - k)
  {
    if k == n {
      AboveTriangle(n - 1, k);
      assert Falling(n - 1, k - 1) * 0 == 0;
    } else {
      FallingIs(n - 1, k);
    }
  }

  lemma {:induction false} FallingGrows(n: nat, i: nat, k: nat)
    requires i <= k <= n
    ensures 0 < Falling(n, i) <= Falling(n, k)
    decreases k
  {
    hide Falling;
    if k == 0 {
      FallingZero(n);
    } else {
      FallingGrows(n, if i < k then i else k - 1, k - 1);
      FallingIs(n, k);
      Grows(Falling(n, k - 1), n - (k - 1));
    }
  }

  /** The values that the variable takes: products first, then quotients without remainder. */
  ghost predicate Trace(values: seq<int>, n: nat, k: nat, steps: nat) {
    |values| == steps + 1 <= 2 * k + 1 && values[0] == 1 &&
    forall j :: 0 <= j < steps ==>
      if j < k then values[j + 1] == values[j] * (n - j) else values[j + 1] * (j - k + 1) == values[j]
  }

  ghost predicate Within(values: seq<int>, bound: int) {
    forall j :: 0 <= j < |values| ==> 0 < values[j] <= bound
  }

  lemma FirstStep(values: seq<int>, n: nat, k: nat, i: nat)
    requires i < k <= n && Trace(values, n, k, i) && values[i] == Falling(n, i) && Within(values, Falling(n, k))
    ensures var v := values[i] * (n - i);
      v == Falling(n, i + 1) && Trace(values + [v], n, k, i + 1) && Within(values + [v], Falling(n, k))
  {
    hide Falling;
    FallingStep(n, i);
    FallingGrows(n, i + 1, k);
  }

  /** The first loop. */
  method Multiply(n: nat, k: nat) returns (result: int, ghost values: seq<int>)
    requires k <= n
    ensures Trace(values, n, k, k) && Within(values, Falling(n, k)) && result == Falling(n, k) == values[k]
  {
    hide Falling;
    result, values := 1, [1];
    FallingZero(n);
    FallingGrows(n, 0, k);
    for i := 0 to k
      invariant Trace(values, n, k, i) && Within(values, Falling(n, k)) && result == values[i] == Falling(n, i)
    {
      FirstStep(values, n, k, i);
      result := result * (n - i);
      values := values + [result];
    }
  }

  lemma SecondStep(values: seq<int>, n: nat, k: nat, i: nat, b: nat)
    requires 1 <= i <= k <= n && Trace(values, n, k, k + i - 1) && Within(values, Falling(n, k))
    requires values[k + i - 1] == b * Product(i, k)
    ensures var v := values[k + i - 1] / i;
      v == b * Product(i + 1, k) && Trace(values + [v], n, k, k + i) && Within(values + [v], Falling(n, k))
  {
    hide Falling, Product;
    ProductIs(i, k);
    var q := b * Product(i + 1, k);
    Associates(b, i, Product(i + 1, k));
    Associates(i, b, Product(i + 1, k));
    Positive(b, Product(i + 1, k));
    assert values[k + i - 1] == i * q;
    DivideExactly(i, q);
    assert q > 0;
    assert q * i == i * q;
  }

  /** The function, and the values that its variable takes: every division is exact, and on a
      machine with 32-bit integers nothing overflows if the largest of them fits. */
  method Combi(n: int, k: int) returns (result: int, ghost values: seq<int>)
    ensures result == Combinations(n, k)
    ensures 0 <= k <= n ==>
      Trace(values, n, k, 2 * k) && Within(values, Falling(n, k)) && values[k] == Falling(n, k) &&
      values[2 * k] == result
  {
    hide Falling, Binomial, Product, Trace, Within;
    values := [];
    if k > n || k < 0 {
      return 0, [];
    }
    result, values := Multiply(n, k);
    FallingIsBinomial(n, k);
    ghost var b := Binomial(n, k);
    var i := 1;
    TraceLength(values, n, k, k);
    while i <= k
      invariant 1 <= i <= k + 1 && Trace(values, n, k, k + i - 1) && Within(values, Falling(n, k))
      invariant |values| == k + i && result == values[k + i - 1] == b * Product(i, k) && values[k] == Falling(n, k)
    {
      SecondStep(values, n, k, i, b);
      result := result / i;
      values := values + [result];
      i := i + 1;
    }
    ProductEmpty(i, k);
  }

  lemma TraceLength(values: seq<int>, n: nat, k: nat, steps: nat)
    requires Trace(values, n, k, steps)
    ensures |values| == steps + 1
  {
  }
}
