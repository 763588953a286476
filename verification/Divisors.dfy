/** Common divisors of two burst sizes. */
module Divisors {
  import opened Products

  function Gcd(a: nat, b: nat): (d: nat)
    requires a > 0 && b > 0
    ensures d > 0
    decreases a + b
  {
    if a == b then a else if a < b then Gcd(a, b - a) else Gcd(a - b, b)
  }

  ghost predicate Multiple(x: nat, d: nat)
  {
    exists k: nat :: x == k * d
  }

  lemma MultipleSum(x: nat, y: nat, d: nat)
    requires Multiple(x, d) && Multiple(y, d)
    ensures Multiple(x + y, d)
  {
    var k: nat :| x == k * d;
    var m: nat :| y == m * d;
    assert x + y == (k + m) * d;
  }

  lemma MultipleDifference(x: nat, y: nat, d: nat)
    requires Multiple(x, d) && Multiple(y, d) && y <= x && d > 0
    ensures Multiple(x - y, d)
  {
    var k: nat :| x == k * d;
    var m: nat :| y == m * d;
    ProductMinus(k, m, d);
    if k < m {
      Product(k - m, d);
    }
  }

  lemma Closer(k: int, m: int, d: nat)
    requires d > 0 && k < m
    ensures k * d + d <= m * d
  {
    ProductMinus(k, m, d);
    Product(k - m, d);
  }

  /** Between two multiples there is nothing closer than d. */
  lemma NextMultiple(x: nat, y: nat, d: nat)
    requires Multiple(x, d) && Multiple(y, d) && x > y - d && d > 0
    ensures x >= y
  {
    var k: nat :| x == k * d;
    var m: nat :| y == m * d;
    if k < m {
      Closer(k, m, d);
    }
  }

  lemma {:induction false} GcdDivides(a: nat, b: nat)
    requires a > 0 && b > 0
    ensures Multiple(a, Gcd(a, b)) && Multiple(b, Gcd(a, b))
    decreases a + b
  {
    var d := Gcd(a, b);
    if a == b {
      assert a == 1 * d;
    } else if a < b {
      GcdDivides(a, b - a);
      MultipleSum(a, b - a, d);
    } else {
      GcdDivides(a - b, b);
      MultipleSum(a - b, b, d);
    }
  }

  /** Some number of steps of a ends just one divisor short of some number of steps of b. */
  lemma {:induction false} GcdReached(a: nat, b: nat) returns (x: nat, y: nat)
    requires a > 0 && b > 0
    ensures x * a + Gcd(a, b) == y * b && y > 0
    decreases a + b
  {
    if a == b {
      x, y := 0, 1;
    } else if a < b {
      x, y := GcdReached(a, b - a);
      assert (x + y) * a + Gcd(a, b) == x * a + y * a + Gcd(a, b) == y * (b - a) + y * a == y * b;
      x := x + y;
    } else {
      x, y := GcdReached(a - b, b);
      assert x * a + Gcd(a, b) == x * (a - b) + x * b + Gcd(a, b) == y * b + x * b == (x + y) * b;
      y := x + y;
    }
  }
}
