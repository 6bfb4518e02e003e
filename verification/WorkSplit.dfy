/** How Homework1/main.c and Homework2/main.c split 1..n over p workers: worker i gets the
    numbers from i * n / p + 1 to (i + 1) * n / p. */
module WorkSplit {
  import opened Sums

  /** The end of the chunks before the i-th. */
  function Boundary(n: nat, p: nat, i: nat): nat
    requires p > 0
  {
    i * n / p
  }

  function From(n: nat, p: nat, i: nat): nat
    requires p > 0
  {
    Boundary(n, p, i) + 1
  }

  function To(n: nat, p: nat, i: nat): nat
    requires p > 0
  {
    Boundary(n, p, i + 1)
  }

  lemma ScaleUp(a: nat, b: nat, p: nat)
    requires a <= b
    ensures a * p <= b * p
  {}

  lemma QuotientIs(x: nat, p: nat, q: nat)
    requires p > 0 && q * p <= x < (q + 1) * p
    ensures x / p == q
  {
    var d := x / p;
    assert d * p <= x < (d + 1) * p by {
      assert x == p * d + x % p;
    }
    if d < q {
      ScaleUp(d + 1, q, p);
    } else if d > q {
      ScaleUp(q + 1, d, p);
    }
  }

  /** floor((b * p + a) / p) = b + floor(a / p) */
  lemma QuotientOfSum(a: nat, b: nat, p: nat)
    requires p > 0
    ensures (b * p + a) / p == b + a / p
  {
    var q := a / p;
    assert a == p * q + a % p;
    assert (b + q) * p == b * p + q * p;
    assert (b + q + 1) * p == b * p + q * p + p;
    QuotientIs(b * p + a, p, b + q);
  }

  lemma BoundarySplits(n: nat, p: nat, i: nat)
    requires p > 0
    ensures Boundary(n, p, i) == i * (n / p) + i * (n % p) / p
  {
    var q, r := n / p, n % p;
    assert n == p * q + r;
    assert i * n == (i * q) * p + i * r;
    QuotientOfSum(i * r, i * q, p);
  }

  lemma EndPoints(n: nat, p: nat)
    requires p > 0
    ensures Boundary(n, p, 0) == 0 && Boundary(n, p, p) == n
  {
    QuotientOfSum(0, n, p);
    assert p * n == n * p + 0;
  }

  lemma NextQuotient(x: nat, r: nat, p: nat)
    requires r < p
    ensures x / p <= (x + r) / p <= x / p + 1
  {
    var q := x / p;
    assert x == p * q + x % p;
    assert (q + 1) * p == q * p + p && (q + 2) * p == q * p + p + p;
    QuotientIs(x + r, p, if x + r < (q + 1) * p then q else q + 1);
  }

  lemma RemainderShare(i: nat, r: nat, p: nat)
    requires r < p
    ensures i * r / p <= (i + 1) * r / p <= i * r / p + 1
    ensures r == 0 ==> (i + 1) * r / p == i * r / p
  {
    assert (i + 1) * r == i * r + r;
    NextQuotient(i * r, r, p);
  }

  lemma TwoForEach(n: nat, p: nat)
    requires 0 < p <= n / 2
    ensures n / p >= 2
  {
    QuotientIs(2 * p, p, 2);
    QuotientMonotone(2 * p, n, p);
  }

  /** Chunks have floor(n/p) or ceil(n/p) elements; under the programs' check p <= n/2 that is
      at least two. */
  lemma ChunkSizes(n: nat, p: nat, i: nat)
    requires p > 0
    ensures var size := To(n, p, i) - From(n, p, i) + 1;
            && (size == n / p || (size == n / p + 1 && n % p != 0))
            && (p <= n / 2 ==> size >= 2)
  {
    BoundarySplits(n, p, i);
    BoundarySplits(n, p, i + 1);
    RemainderShare(i, n % p, p);
    assert (i + 1) * (n / p) == i * (n / p) + n / p;
    if p <= n / 2 {
      TwoForEach(n, p);
    }
  }

  lemma QuotientMonotone(x: nat, y: nat, p: nat)
    requires p > 0 && x <= y
    ensures x / p <= y / p
  {
    var d, e := x / p, y / p;
    assert x == p * d + x % p && y == p * e + y % p;
    if e < d {
      ScaleUp(e + 1, d, p);
    }
  }

  lemma BoundaryMonotone(n: nat, p: nat, i: nat, j: nat)
    requires p > 0 && i <= j
    ensures Boundary(n, p, i) <= Boundary(n, p, j)
  {
    ScaleUp(i, j, n);
    QuotientMonotone(i * n, j * n, p);
  }

  lemma {:induction false} ChunkHolding(n: nat, p: nat, x: nat, k: nat) returns (i: nat)
    requires p > 0 && Boundary(n, p, 0) < x <= Boundary(n, p, k)
    ensures i < k && From(n, p, i) <= x <= To(n, p, i)
    decreases k
  {
    if x > Boundary(n, p, k - 1) {
      i := k - 1;
    } else {
      i := ChunkHolding(n, p, x, k - 1);
    }
  }

  predicate InChunk(n: nat, p: nat, i: nat, x: int)
    requires p > 0
  {
    From(n, p, i) <= x <= To(n, p, i)
  }

  /** Chunk i ends at the largest number that is at most (i + 1) * n / p as a fraction, and starts
      behind the end of the chunk before it, the first at 1 and the last up to n. */
  lemma ChunkEnds(n: nat, p: nat, i: nat)
    requires p > 0
    ensures p * To(n, p, i) <= (i + 1) * n < p * (To(n, p, i) + 1)
    ensures From(n, p, i) == if i == 0 then 1 else To(n, p, i - 1) + 1
    ensures i == p - 1 ==> To(n, p, i) == n
  {
    EndPoints(n, p);
    var x := (i + 1) * n;
    assert x == p * (x / p) + x % p;
  }

  /** The chunks tile 1..n: every number of it is in exactly one chunk, and no chunk reaches
      outside it. */
  lemma ChunksTile(n: nat, p: nat, x: int)
    requires p > 0
    ensures 1 <= x <= n <==> exists i: nat :: i < p && InChunk(n, p, i, x)
    ensures forall i: nat, j: nat :: i < p && j < p && InChunk(n, p, i, x) && InChunk(n, p, j, x) ==> i == j
  {
    EndPoints(n, p);
    if 1 <= x <= n {
      var i := ChunkHolding(n, p, x, p);
      assert InChunk(n, p, i, x);
    }
    forall i: nat | i < p && InChunk(n, p, i, x) ensures 1 <= x <= n {
      BoundaryMonotone(n, p, i + 1, p);
    }
    forall i: nat, j: nat | i < p && j < p && InChunk(n, p, i, x) && InChunk(n, p, j, x) ensures i == j {
      if i < j {
        BoundaryMonotone(n, p, i + 1, j);
      } else if j < i {
        BoundaryMonotone(n, p, j + 1, i);
      }
    }
  }

  /** With the accepted arguments no product overflows a 32-bit int. */
  lemma BoundsFitInt(n: nat, p: nat, i: nat)
    requires n <= 1000 && i < p <= 100
    ensures 0 <= i * n <= (i + 1) * n <= 100_000 < 0x8000_0000
  {
    ScaleUp(i, i + 1, n);
    ScaleUp(i + 1, 100, n);
  }

  // ---------------------------------------------------------------- sums over a chunk

  /** The sum of lo..hi, and of its squares; zero when the range is empty. */
  function RangeSum(lo: int, hi: int): int
    decreases hi - lo
  {
    if hi < lo then 0 else RangeSum(lo, hi - 1) + hi
  }

  function RangeSquares(lo: int, hi: int): int
    decreases hi - lo
  {
    if hi < lo then 0 else lo * lo + RangeSquares(lo + 1, hi)
  }

  lemma {:induction false} RangeSumIs(lo: nat, hi: nat)
    requires lo <= hi
    ensures RangeSum(lo + 1, hi) == SumTo(hi) - SumTo(lo)
    decreases hi
  {
    if lo < hi {
      RangeSumIs(lo, hi - 1);
    }
  }

  lemma {:induction false} RangeSquaresIs(lo: nat, hi: nat)
    requires lo <= hi
    ensures RangeSquares(lo + 1, hi) == SquaresTo(hi) - SquaresTo(lo)
    decreases hi - lo
  {
    if lo < hi {
      RangeSquaresIs(lo + 1, hi);
    }
  }

  /** The partial sums of all chunks add up to the whole sum. */
  lemma ChunkSum(n: nat, p: nat, i: nat)
    requires p > 0
    ensures Boundary(n, p, i) <= Boundary(n, p, i + 1)
    ensures RangeSum(From(n, p, i), To(n, p, i)) == SumTo(Boundary(n, p, i + 1)) - SumTo(Boundary(n, p, i))
    ensures RangeSquares(From(n, p, i), To(n, p, i))
            == SquaresTo(Boundary(n, p, i + 1)) - SquaresTo(Boundary(n, p, i))
  {
    BoundaryMonotone(n, p, i, i + 1);
    RangeSumIs(Boundary(n, p, i), Boundary(n, p, i + 1));
    RangeSquaresIs(Boundary(n, p, i), Boundary(n, p, i + 1));
  }
}
