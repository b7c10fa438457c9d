/** Facts about `*`, `/` and `%` on integers that the solver does not find
    by itself (Dafny's `/` and `%` are Euclidean: the remainder is never
    negative). */
module Arith {

  lemma {:induction false} MulAtLeast(d: int, n: int)
    requires n > 0
    ensures d > 0 ==> d * n >= n
    ensures d < 0 ==> d * n <= -n
    decreases if d < 0 then -d else d
  {
    if d > 1 {
      MulAtLeast(d - 1, n);
      assert d * n == (d - 1) * n + n;
    } else if d < -1 {
      MulAtLeast(d + 1, n);
      assert d * n == (d + 1) * n - n;
    }
  }

  /** Quotient and remainder are the only pair that rebuilds `a`. */
  lemma ModUnique(a: int, n: int, q: int, r: int)
    requires n > 0 && 0 <= r < n && a == q * n + r
    ensures a / n == q && a % n == r
  {
    var q', r' := a / n, a % n;
    assert a == q' * n + r' && 0 <= r' < n;
    var d := q - q';
    assert d * n == r' - r by {
      assert q * n - q' * n == (q - q') * n;
    }
    MulAtLeast(d, n);
  }

  lemma ModShift(a: int, n: nat)
    requires 0 < n
    ensures (a + n) % n == a % n
  {
    ModUnique(a + n, n, a / n + 1, a % n);
  }

  lemma ModSmall(a: int, n: nat)
    requires 0 <= a < n
    ensures a % n == a && a / n == 0
  {
    ModUnique(a, n, 0, a);
  }

  lemma MulSucc(a: int, n: int)
    ensures a * n + n == (a + 1) * n
  {
  }

  /** The index `q * n + r` of an x-major layout of rows of length `n` splits back into `q` and `r`. */
  lemma DivModUnique(q: nat, r: nat, n: nat)
    requires r < n
    ensures (q * n + r) / n == q && (q * n + r) % n == r
  {
    ModUnique(q * n + r, n, q, r);
  }

  /** `q * n`, as `n` added `q` times: index arithmetic goes through this
      and `Flat`, and `MulIsProduct` ties it to `*` where a size is compared. */
  function Mul(q: nat, n: nat): nat {
    if q == 0 then 0 else Mul(q - 1, n) + n
  }

  /** Entry `r` of block `q`, the blocks being `n` long: `q * n + r`. */
  function Flat(q: nat, r: nat, n: nat): nat {
    Mul(q, n) + r
  }

  lemma {:induction false} MulIsProduct(q: nat, n: nat)
    ensures Mul(q, n) == q * n
  {
    if q > 0 {
      MulIsProduct(q - 1, n);
      MulSucc(q - 1, n);
    }
  }

  lemma {:induction false} MulMonotone(p: nat, q: nat, n: nat)
    requires p <= q
    ensures Mul(p, n) <= Mul(q, n)
  {
    if p < q {
      MulMonotone(p, q - 1, n);
    }
  }

  /** Entry `r < n` of block `q < m` lies below `m` whole blocks. */
  lemma FlatBelow(q: nat, r: nat, m: nat, n: nat)
    requires q < m && r <= n
    ensures Flat(q, r, n) <= Mul(m, n)
    ensures r < n ==> Flat(q, r, n) < Mul(m, n)
  {
    MulMonotone(q + 1, m, n);
  }

  /** Entry `x < n` of block `q` lies in block `p` exactly when `p == q`. */
  lemma FlatSameBlock(p: nat, q: nat, x: nat, n: nat)
    requires x < n
    ensures Mul(p, n) <= Flat(q, x, n) < Mul(p, n) + n <==> p == q
  {
    if p < q {
      MulMonotone(p + 1, q, n);
    } else if p > q {
      MulMonotone(q + 1, p, n);
    }
  }

  /** Flattening entries `r < n` is one-to-one. */
  lemma FlatInjective(q: nat, r: nat, p: nat, x: nat, n: nat)
    requires r < n && x < n && Flat(q, r, n) == Flat(p, x, n)
    ensures q == p && r == x
  {
    FlatSameBlock(q, p, x, n);
  }

  /** Entry `r < n` of block `q` splits back into `q` and `r` under `/` and `%`. */
  lemma FlatDivMod(q: nat, r: nat, n: nat)
    requires r < n
    ensures Flat(q, r, n) / n == q && Flat(q, r, n) % n == r
  {
    MulIsProduct(q, n);
    DivModUnique(q, r, n);
  }

  /** Entry `r < n` of block `q < m` lies below `m * n`. */
  lemma FlatBelowProduct(q: nat, r: nat, m: nat, n: nat)
    requires q < m && r < n
    ensures Flat(q, r, n) < m * n
  {
    FlatBelow(q, r, m, n);
    MulIsProduct(m, n);
  }

  /** Every index below `m` blocks of `n` is some entry `r < n` of some block `q < m`. */
  lemma {:induction false} Unflatten(c: nat, m: nat, n: nat) returns (q: nat, r: nat)
    requires c < Mul(m, n)
    ensures c == Flat(q, r, n) && q < m && r < n
  {
    if c < Mul(m - 1, n) {
      q, r := Unflatten(c, m - 1, n);
    } else {
      q, r := m - 1, c - Mul(m - 1, n);
    }
  }
}
