/** Counting the hits of a counter that is incremented and then reduced modulo the number of choices. */
module RoundRobin {

  lemma MulAtLeast(d: int, n: int)
    requires n > 0
    ensures d >= 1 ==> d * n >= n
    ensures d <= -1 ==> d * n <= -n
  {
  }

  lemma DivUnique(x: int, n: int, q: int, r: int)
    requires n > 0 && x == q * n + r && 0 <= r < n
    ensures x / n == q && x % n == r
  {
    var d := q - x / n;
    assert x == (x / n) * n + x % n;
    assert d * n == x % n - r;
    MulAtLeast(d, n);
  }

  lemma DivSum(a: nat, b: nat, n: int)
    requires n > 0
    ensures a % n + b % n < n ==> (a + b) / n == a / n + b / n && (a + b) % n == a % n + b % n
    ensures a % n + b % n >= n ==> (a + b) / n == a / n + b / n + 1 && (a + b) % n == a % n + b % n - n
  {
    assert a == (a / n) * n + a % n && b == (b / n) * n + b % n;
    assert (a / n + b / n) * n == (a / n) * n + (b / n) * n;
    if a % n + b % n < n {
      DivUnique(a + b, n, a / n + b / n, a % n + b % n);
    } else {
      assert (a / n + b / n + 1) * n == (a / n + b / n) * n + n;
      DivUnique(a + b, n, a / n + b / n + 1, a % n + b % n - n);
    }
  }

  /** How often the choices c+1, c+2, ..., c+m, each taken modulo n, fall on j. */
  function Hits(c: nat, m: nat, n: int, j: int): nat
    requires n > 0
  {
    if m == 0 then 0 else Hits(c, m - 1, n, j) + (if (c + m) % n == j then 1 else 0)
  }

  /** The multiples-of-n-plus-j in (c, c + m], by counting those up to each end. */
  lemma {:induction false} HitsClosedForm(c: nat, m: nat, n: int, j: int)
    requires 0 <= j < n
    ensures Hits(c, m, n, j) == UpTo(c + m, n, j) - UpTo(c, n, j)
  {
    if m > 0 {
      HitsClosedForm(c, m - 1, n, j);
      DivSum(c + m - 1, 1, n);
      if n == 1 {
        DivUnique(c + m, 1, c + m, 0);
        DivUnique(c + m - 1, 1, c + m - 1, 0);
      } else {
        DivUnique(1, n, 0, 1);
      }
    }
  }

  /** The numbers t with t % n == j and 0 <= t <= x. */
  function UpTo(x: nat, n: int, j: int): nat
    requires n > 0
  {
    x / n + (if j <= x % n then 1 else 0)
  }

  /** Any m consecutive choices put floor(m/n) or ceil(m/n) on each of the n; exactly m/n when n divides m. */
  lemma Fair(c: nat, m: nat, n: int, j: int)
    requires 0 <= j < n
    ensures m / n <= Hits(c, m, n, j) <= m / n + 1
    ensures m % n == 0 ==> Hits(c, m, n, j) == m / n
  {
    HitsClosedForm(c, m, n, j);
    DivSum(c, m, n);
  }
}
