/** How many pages and frames the memory process makes
    (memoria/src/memoria.c, paginas_necesarias_proceso and inicializar_marcos). */
module PageCount {
  import opened Words

  function Ceil(x: real): int {
    -((-x).Floor)
  }

  /** paginas_necesarias_proceso: the quotient as a double, plus one when there is a
      remainder, rounded up. */
  function PagesNeeded(size: nat, page: nat): int
    requires page > 0
  {
    var quotient := size as real / page as real;
    Ceil(if size % page > 0 then quotient + 1.0 else quotient)
  }

  /** The loop of inicializar_marcos runs while i < size / page as doubles. */
  function FrameCount(memory: nat, page: nat): int
    requires page > 0
  {
    Ceil(memory as real / page as real)
  }

  lemma Positive(x: real, p: real)
    requires x > 0.0 && p > 0.0
    ensures x * p > 0.0
  {
  }

  lemma NonNegative(x: real, p: real)
    requires x >= 0.0 && p > 0.0
    ensures x * p >= 0.0
  {
  }

  /** x lies between q and q + 1 when x * p lies between q * p and (q + 1) * p. */
  lemma Between(x: real, q: real, p: real, r: real)
    requires p > 0.0 && x * p == q * p + r && 0.0 <= r < p
    ensures q <= x < q + 1.0 && (r == 0.0 <==> x == q)
  {
    assert (x - q) * p == r;
    if x < q {
      Positive(q - x, p);
    } else if x > q {
      Positive(x - q, p);
    }
    var d := x - q - 1.0;
    assert (d + 1.0) * p == d * p + p;
    assert x - q == d + 1.0 && r == d * p + p;
    if d >= 0.0 {
      NonNegative(d, p);
    }
  }

  lemma Quotient(a: nat, p: nat)
    requires p > 0
    ensures Ceil(a as real / p as real) == a / p + if a % p == 0 then 0 else 1
    ensures Ceil(a as real / p as real + 1.0) == Ceil(a as real / p as real) + 1
  {
    var q, r := a / p, a % p;
    JoinAddress(p, a);
    assert (q * p) as real == q as real * p as real;
    assert a as real == q as real * p as real + r as real;
    var x := a as real / p as real;
    Between(x, q as real, p as real, r as real);
  }

  /** The exact count, and what it means: the process always fits, with less than two
      pages to spare; it is the least number of pages that fits exactly when the page size
      divides the size, and one more than that otherwise. */
  lemma PagesNeededExact(size: nat, page: nat)
    requires page > 0
    ensures var n := PagesNeeded(size, page);
            && n == size / page + (if size % page == 0 then 0 else 2)
            && size <= n * page < size + 2 * page
            && (size % page == 0 <==> size == n * page)
            && (size % page == 0 <==> IsLeast(size, page, n))
  {
    Quotient(size, page);
    var n, q := PagesNeeded(size, page), size / page;
    JoinAddress(page, size);
    if size % page == 0 {
      assert n == q;
      forall k: nat | Covers(size, page, k) ensures n <= k {
        if k < q {
          FramesApart(page, k, q);
        }
      }
    } else {
      assert n == q + 2;
      assert (q + 1) * page == q * page + page && n * page == q * page + page + page;
      assert Covers(size, page, q + 1);
    }
  }

  predicate Covers(size: nat, page: nat, k: nat) {
    size <= k * page
  }

  ghost predicate IsLeast(size: nat, page: nat, n: int) {
    forall k: nat :: Covers(size, page, k) ==> n <= k
  }

  /** All frames lie inside the user memory exactly when it is a whole number of pages. */
  lemma FramesFit(memory: nat, page: nat)
    requires page > 0
    ensures FrameCount(memory, page) * page <= memory <==> memory % page == 0
    ensures memory % page == 0 ==> FrameCount(memory, page) == memory / page
  {
    Quotient(memory, page);
    JoinAddress(page, memory);
  }
}
