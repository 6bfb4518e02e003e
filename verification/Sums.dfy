/** The two sums the homework programs compute, with their closed forms. */
module Sums {

  /** 1 + 2 + ... + n */
  function SumTo(n: nat): nat {
    if n == 0 then 0 else SumTo(n - 1) + n
  }

  /** 1^2 + 2^2 + ... + n^2 */
  function SquaresTo(n: nat): nat {
    if n == 0 then 0 else SquaresTo(n - 1) + n * n
  }

  lemma {:induction false} TwiceSumTo(n: nat)
    ensures 2 * SumTo(n) == n * (n + 1)
  {
    if n != 0 {
      TwiceSumTo(n - 1);
    }
  }

  lemma SumToClosedForm(n: nat)
    ensures SumTo(n) == n * (n + 1) / 2
  {
    TwiceSumTo(n);
  }

  lemma {:induction false} SumToMonotone(m: nat, n: nat)
    requires m <= n
    ensures SumTo(m) <= SumTo(n)
  {
    if m < n {
      SumToMonotone(m, n - 1);
    }
  }

  lemma Regroup(a: int, b: int, c: int)
    ensures a * b * c == a * (b * c)
  {}

  lemma NeighbouringProducts(n: nat)
    ensures (n + 1) * (2 * n + 1) == (n - 1) * (2 * (n - 1) + 1) + 6 * n
  {}

  /** n(n+1)(2n+1) grows by six squares from n-1 to n. */
  lemma CubicStep(n: nat)
    requires n > 0
    ensures n * (n + 1) * (2 * n + 1) == (n - 1) * n * (2 * (n - 1) + 1) + 6 * (n * n)
  {
    var x, y := (n + 1) * (2 * n + 1), (n - 1) * (2 * (n - 1) + 1);
    NeighbouringProducts(n);
    Regroup(n, n + 1, 2 * n + 1);
    Regroup(n, n - 1, 2 * (n - 1) + 1);
    assert (n - 1) * n == n * (n - 1);
    assert n * (y + 6 * n) == n * y + 6 * (n * n);
  }

  lemma {:induction false} SixTimesSquares(n: nat)
    ensures 6 * SquaresTo(n) == n * (n + 1) * (2 * n + 1)
  {
    if n != 0 {
      SixTimesSquares(n - 1);
      CubicStep(n);
    }
  }

  lemma SquaresClosedForm(n: nat)
    ensures SquaresTo(n) == n * (n + 1) * (2 * n + 1) / 6
  {
    SixTimesSquares(n);
  }

  lemma {:induction false} SquaresMonotone(m: nat, n: nat)
    requires m <= n
    ensures SquaresTo(m) <= SquaresTo(n)
  {
    if m < n {
      SquaresMonotone(m, n - 1);
    }
  }

  /** The largest sum any accepted command line produces is far inside a 32-bit int. */
  lemma SquaresFitInt(n: nat)
    requires n <= 1000
    ensures SquaresTo(n) <= 333_833_500 < 0x8000_0000
  {
    SquaresMonotone(n, 1000);
    SixTimesSquares(1000);
  }
}
