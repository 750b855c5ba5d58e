/** The find_next_prime_number system call, over unbounded integers. */
module Prime {

  predicate Divides(d: int, n: int)
    requires d > 0
  {
    n % d == 0
  }

  predicate IsPrime(n: int) {
    n >= 2 && forall d :: 2 <= d < n ==> !Divides(d, n)
  }

  // ---------------------------------------------------------------------------
  // There is always a larger prime

  function Factorial(n: nat): nat {
    if n == 0 then 1 else n * Factorial(n - 1)
  }

  lemma {:induction false} DividesFactorial(d: nat, n: nat)
    requires 1 <= d <= n
    ensures Factorial(n) > 0 && exists q: nat :: Factorial(n) == d * q
  {
    if d == n {
      FactorialPositive(n);
      assert Factorial(n) == d * Factorial(n - 1);
    } else {
      DividesFactorial(d, n - 1);
      var q: nat :| Factorial(n - 1) == d * q;
      FactorialPositive(n);
      assert n * (d * q) == d * (n * q);
    }
  }

  lemma {:induction false} FactorialPositive(n: nat)
    ensures Factorial(n) > 0
  {
    if n > 0 {
      FactorialPositive(n - 1);
    }
  }

  lemma SmallMultiple(d: int, k: int)
    requires d > 0
    ensures 0 <= d * k < d ==> k == 0
    ensures d >= 2 ==> d * k != 1
  {
    if k >= 1 {
      assert d * k == d * (k - 1) + d && d * (k - 1) >= 0;
    } else if k <= -1 {
      assert d * (-k) == d * (-k - 1) + d && d * (-k - 1) >= 0;
      assert d * k == -(d * (-k));
    }
  }

  lemma Multiple(d: int, q: int)
    requires d > 0
    ensures Divides(d, d * q)
  {
    var x := d * q;
    assert x == d * (x / d) + x % d;
    assert d * (q - x / d) == x % d;
    SmallMultiple(d, q - x / d);
  }

  /** The least divisor of n above 1 is prime. */
  lemma LeastDivisor(n: int, d: int) returns (p: int)
    requires n >= 2 && 2 <= d <= n && Divides(d, n)
    ensures IsPrime(p) && Divides(p, n)
    decreases d
  {
    if e :| 2 <= e < d && Divides(e, d) {
      var a, b := d / e, n / d;
      assert n == d * b && d == e * a;
      assert n == e * (a * b);
      Multiple(e, a * b);
      p := LeastDivisor(n, e);
    } else {
      p := d;
    }
  }

  lemma PrimeAbove(n: nat) returns (p: nat)
    ensures p > n && IsPrime(p)
  {
    FactorialPositive(n);
    var m := Factorial(n) + 1;
    Multiple(m, 1);
    p := LeastDivisor(m, m);
    if p <= n {
      DividesFactorial(p, n);
      var q: nat :| Factorial(n) == p * q;
      var r := m / p;
      assert m == p * r;
      assert 1 == p * (r - q);
      SmallMultiple(p, r - q);
      assert false;
    }
  }

  // ---------------------------------------------------------------------------

  /** The least prime above a positive number; any other number is only increased. */
  method FindNextPrime(number: int) returns (n: int)
    ensures n > number
    ensures number >= 1 ==> IsPrime(n) && forall m :: number < m < n ==> !IsPrime(m)
    ensures number <= 0 ==> n == number + 1
    ensures IsPrime(n) <==> number >= 1
  {
    n := number + 1;
    ghost var p := PrimeAbove(if number < 0 then 0 else number);
    while true
      invariant number < n <= p
      invariant number <= 0 ==> n == number + 1
      invariant forall m :: number < m < n ==> !IsPrime(m)
      decreases p - n
    {
      var flag := false;
      var i := 2;
      while i < n
        invariant 2 <= i && (n >= 2 ==> i <= n)
        invariant flag <==> exists d :: 2 <= d < i && Divides(d, n)
        invariant n < 2 ==> !flag
      {
        if Divides(i, n) {
          flag := true;
        }
        i := i + 1;
      }
      if !flag {
        return;
      }
      n := n + 1;
    }
  }
}
