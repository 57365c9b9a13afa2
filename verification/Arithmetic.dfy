/** Division and remainder by a variable, which the solver does not handle unaided. */
module Arithmetic {
  lemma MultipleOfAtLeast(k: int, n: int)
    requires n > 0
    ensures k >= 1 ==> k * n >= n
    ensures k <= -1 ==> k * n <= -n
  {
  }

  lemma ModUnique(x: int, a: int, r: int, n: int)
    requires n > 0 && 0 <= r < n && x == a * n + r
    ensures x % n == r && x / n == a
  {
    var b, s := x / n, x % n;
    assert (a - b) * n == s - r;
    MultipleOfAtLeast(a - b, n);
  }

  lemma EuclideanStep(x: int, n: int)
    requires n > 0
    ensures (x + 1) % n == if x % n + 1 < n then x % n + 1 else 0
  {
    var a, r := x / n, x % n;
    assert x == a * n + r;
    if r + 1 < n {
      ModUnique(x + 1, a, r + 1, n);
    } else {
      assert x + 1 == (a + 1) * n + 0;
      ModUnique(x + 1, a + 1, 0, n);
    }
  }

  lemma EuclideanStepQuotient(x: int, n: int)
    requires n > 0
    ensures (x + 1) / n == if x % n + 1 < n then x / n else x / n + 1
  {
    var a, r := x / n, x % n;
    assert x == a * n + r;
    if r + 1 < n {
      ModUnique(x + 1, a, r + 1, n);
    } else {
      assert x + 1 == (a + 1) * n + 0;
      ModUnique(x + 1, a + 1, 0, n);
    }
  }

  lemma SameRemainder(x: int, y: int, n: int)
    requires n > 0
    ensures x % n == y % n <==> (y - x) % n == 0
  {
    var a, b := x / n, y / n;
    assert x == a * n + x % n && y == b * n + y % n;
    if x % n == y % n {
      assert y - x == (b - a) * n + 0;
      ModUnique(y - x, b - a, 0, n);
    }
    if (y - x) % n == 0 {
      var d := (y - x) / n;
      assert y == (a + d) * n + x % n;
      ModUnique(y, a + d, x % n, n);
    }
  }

  lemma WrapOnce(x: nat, n: nat)
    requires n <= x < 2 * n
    ensures x % n == x - n
  {
    assert x == 1 * n + (x - n);
  }
}
