/** The unsigned-integer arithmetic of the table: masks and shifts by powers of two. */
module Bits {

  function Pow2(k: nat): (r: nat)
    ensures r > 0
  {
    if k == 0 then 1 else 2 * Pow2(k - 1)
  }

  /** Bitwise and. */
  function BitAnd(x: nat, y: nat): nat {
    if x == 0 || y == 0 then 0
    else 2 * BitAnd(x / 2, y / 2) + (if x % 2 == 1 && y % 2 == 1 then 1 else 0)
  }

  /** Logical shift right. */
  function Shr(x: nat, k: nat): nat {
    if k == 0 then x else Shr(x / 2, k - 1)
  }

  function CeilDiv(n: nat, d: nat): nat
    requires d > 0
  {
    n / d + (if n % d != 0 then 1 else 0)
  }

  lemma {:induction false} MulLess(a: nat, b: nat, d: nat)
    requires a < b
    ensures a * d + d <= b * d
    decreases b
  {
    assert (b - 1) * d + d == b * d;
    if a < b - 1 {
      MulLess(a, b - 1, d);
    }
  }

  lemma DivModLaw(x: nat, d: nat) returns (q: nat, r: nat)
    requires d > 0
    ensures x == q * d + r && r == x % d && r < d
  {
    q, r := x / d, x % d;
  }

  lemma DivModUnique(x: nat, d: nat, q: nat, r: nat)
    requires d > 0 && r < d && x == q * d + r
    ensures x / d == q && x % d == r
  {
    var q', r' := x / d, x % d;
    if q' < q {
      MulLess(q', q, d);
    } else if q' > q {
      MulLess(q, q', d);
    }
  }

  lemma HalveDivMod(x: nat, m: nat)
    requires m > 0
    ensures x / (2 * m) == (x / 2) / m
    ensures x % (2 * m) == 2 * ((x / 2) % m) + x % 2
  {
    var q, r := (x / 2) / m, (x / 2) % m;
    assert x / 2 == q * m + r;
    assert x == q * (2 * m) + (2 * r + x % 2);
    DivModUnique(x, 2 * m, q, 2 * r + x % 2);
  }

  /** Masking with `2^k - 1` is the remainder modulo `2^k`. */
  lemma {:induction false} MaskIsMod(x: nat, k: nat)
    ensures BitAnd(x, Pow2(k) - 1) == x % Pow2(k)
    decreases k
  {
    if k > 0 {
      var m := Pow2(k - 1);
      MaskIsMod(x / 2, k - 1);
      HalveDivMod(x, m);
      assert (2 * m - 1) / 2 == m - 1;
      if m == 1 {
        assert BitAnd(x / 2, 0) == 0;
      }
    }
  }

  /** Shifting right by `k` divides by `2^k`. */
  lemma {:induction false} ShrIsDiv(x: nat, k: nat)
    ensures Shr(x, k) == x / Pow2(k)
    decreases k
  {
    if k > 0 {
      ShrIsDiv(x / 2, k - 1);
      HalveDivMod(x, Pow2(k - 1));
    }
  }

  /** The value of `CeilDiv` is the least `q` with `n <= q * d`. */
  lemma CeilDivBounds(n: nat, d: nat)
    requires d > 0
    ensures n <= CeilDiv(n, d) * d < n + d
  {
    assert n == (n / d) * d + n % d;
    assert (n / d + 1) * d == (n / d) * d + d;
  }

  lemma CeilDivUnique(n: nat, d: nat, q: nat)
    requires d > 0 && n <= q * d < n + d
    ensures q == CeilDiv(n, d)
  {
    CeilDivBounds(n, d);
    var c := CeilDiv(n, d);
    if q < c {
      MulLess(q, c, d);
    } else if q > c {
      MulLess(c, q, d);
    }
  }

  /** The ideal chain length by shift and mask is the quotient, rounded up. */
  lemma IdealIsCeil(n: nat, k: nat)
    ensures Shr(n, k) + (if BitAnd(n, Pow2(k) - 1) != 0 then 1 else 0) == CeilDiv(n, Pow2(k))
    ensures n > 0 ==> CeilDiv(n, Pow2(k)) > 0
  {
    ShrIsDiv(n, k);
    MaskIsMod(n, k);
    CeilDivBounds(n, Pow2(k));
  }

  /** An item of bucket `i` out of `n` belongs to bucket `i` or `i + n` out of `2 * n`. */
  lemma SplitBucket(x: nat, n: nat)
    requires n > 0
    ensures x % (2 * n) == x % n || x % (2 * n) == x % n + n
    ensures (x % (2 * n)) % n == x % n
  {
    var m := 2 * n;
    var q, r := DivModLaw(x, m);
    SplitQuotient(x, n, m, q, r);
  }

  lemma SplitQuotient(x: nat, n: nat, m: nat, q: nat, r: nat)
    requires n > 0 && m == 2 * n && r < m && x == q * m + r
    ensures r % n == x % n && x % n == if r < n then r else r - n
  {
    var k := if r < n then 0 else 1;
    assert q * m == (2 * q) * n;
    assert (2 * q + k) * n == (2 * q) * n + k * n;
    DivModUnique(x, n, 2 * q + k, r - k * n);
    DivModUnique(r, n, k, r - k * n);
  }
}
