/** Finite sums of reals. */
module Sums {
  /** f(0) + ... + f(n-1). */
  ghost function Sum(n: nat, f: int -> real): real {
    if n == 0 then 0.0 else Sum(n - 1, f) + f(n - 1)
  }

  lemma {:induction false} SumCong(n: nat, f: int -> real, g: int -> real)
    requires forall k :: 0 <= k < n ==> f(k) == g(k)
    ensures Sum(n, f) == Sum(n, g)
  {
    if n == 0 {
    } else {
      SumCong(n - 1, f, g);
    }
  }

  lemma {:induction false} SumAdd(n: nat, f: int -> real, g: int -> real)
    ensures Sum(n, k => f(k) + g(k)) == Sum(n, f) + Sum(n, g)
  {
    if n == 0 {
    } else {
      SumAdd(n - 1, f, g);
    }
  }

  lemma {:induction false} SumScale(n: nat, c: real, f: int -> real)
    ensures Sum(n, k => c * f(k)) == c * Sum(n, f)
  {
    if n == 0 {
    } else {
      SumScale(n - 1, c, f);
      assert c * (Sum(n - 1, f) + f(n - 1)) == c * Sum(n - 1, f) + c * f(n - 1);
    }
  }

  lemma {:induction false} SumZero(n: nat, f: int -> real)
    requires forall k :: 0 <= k < n ==> f(k) == 0.0
    ensures Sum(n, f) == 0.0
  {
    if n == 0 {
    } else {
      SumZero(n - 1, f);
    }
  }

  lemma {:induction false} SumNonneg(n: nat, f: int -> real)
    requires forall k :: 0 <= k < n ==> f(k) >= 0.0
    ensures Sum(n, f) >= 0.0
  {
    if n == 0 {
    } else {
      SumNonneg(n - 1, f);
    }
  }

  lemma {:induction false} SumPositive(n: nat, j: nat, f: int -> real)
    requires j < n && f(j) > 0.0 && forall k :: 0 <= k < n ==> f(k) >= 0.0
    ensures Sum(n, f) > 0.0
  {
    if j == n - 1 {
      SumNonneg(n - 1, f);
    } else {
      SumPositive(n - 1, j, f);
    }
  }

  /** Only term `j` is non-zero. */
  lemma {:induction false} SumSingle(n: nat, j: nat, f: int -> real)
    requires j < n && forall k :: 0 <= k < n && k != j ==> f(k) == 0.0
    ensures Sum(n, f) == f(j)
  {
    if j == n - 1 {
      SumZero(n - 1, f);
    } else {
      SumSingle(n - 1, j, f);
    }
  }

  /** Exchange of the order of summation. */
  lemma {:induction false} SumSwap(m: nat, n: nat, f: (int, int) -> real)
    ensures Sum(m, i => Sum(n, j => f(i, j))) == Sum(n, j => Sum(m, i => f(i, j)))
  {
    var cols := j => Sum(m, i => f(i, j));
    if m == 0 {
      SumZero(n, cols);
    } else {
      var before, last := j => Sum(m - 1, i => f(i, j)), j => f(m - 1, j);
      SumSwap(m - 1, n, f);
      SumAdd(n, before, last);
      SumCong(n, cols, k => before(k) + last(k));
    }
  }

  /** Only the three terms from `base` on are non-zero. */
  lemma {:induction false} SumThree(n: nat, base: nat, f: int -> real)
    requires base + 3 <= n && forall k :: 0 <= k < n && !(base <= k < base + 3) ==> f(k) == 0.0
    ensures Sum(n, f) == f(base) + f(base + 1) + f(base + 2)
  {
    if n == base + 3 {
      SumZero(base, f);
      assert Sum(base + 1, f) == Sum(base, f) + f(base);
      assert Sum(base + 2, f) == Sum(base + 1, f) + f(base + 1);
    } else {
      SumThree(n - 1, base, f);
    }
  }
}
