/** Shared by the other modules: optional values, bytes, division, counting. */
module Common {
  datatype Option<+T> = None | Some(value: T)

  type byte = x: int | 0 <= x < 256

  lemma MulStep(d: nat, a: nat, b: nat)
    requires a < b
    ensures d * b >= d * a + d
  {
    assert d * b == d * a + d * (b - a);
    assert d * (b - a) == d * (b - a - 1) + d;
  }

  /** Quotient and remainder are determined by what they satisfy. */
  lemma DivUnique(x: nat, d: nat, q: nat, r: nat)
    requires d > 0 && x == d * q + r && r < d
    ensures x / d == q && x % d == r
  {
    var q', r' := x / d, x % d;
    if q < q' {
      MulStep(d, q, q');
    } else if q' < q {
      MulStep(d, q', q);
    }
  }

  lemma DivSum(d: nat, a: nat, f: nat)
    requires d > 0
    ensures (d * a + f) / d == a + f / d && (d * a + f) % d == f % d
  {
    assert d * a + f == d * (a + f / d) + f % d;
    DivUnique(d * a + f, d, a + f / d, f % d);
  }

  /** A counter modulo m still counts modulo a divisor n of m. */
  lemma ModOfMod(p: nat, n: nat, k: nat, m: nat)
    requires n > 0 && m > 0 && m == n * k
    ensures p % m % n == p % n
  {
    var q, r := p / m, p % m;
    assert p == m * q + r;
    MulAssoc(n, k, q);
    DivSum(n, k * q, r);
  }

  lemma MulAssoc(a: nat, b: nat, c: nat)
    ensures a * b * c == a * (b * c)
  {
  }

  lemma ModPlus(p: nat, j: nat, m: nat)
    requires m > 0
    ensures (p % m + j) % m == (p + j) % m
  {
    assert p + j == m * (p / m) + (p % m + j);
    DivSum(m, p / m, p % m + j);
  }

  /** Distinct numbers below a bound are no more than the bound. */
  lemma {:induction false} Pigeonhole(s: seq<nat>, bound: nat)
    requires forall i, j :: 0 <= i < j < |s| ==> s[i] != s[j]
    requires forall i :: 0 <= i < |s| ==> s[i] < bound
    ensures |s| <= bound
  {
    if bound == 0 {
      assert (s + [0])[0] >= 0;
    } else if k :| 0 <= k < |s| && s[k] == bound - 1 {
      Pigeonhole(s[..k] + s[k + 1..], bound - 1);
    } else {
      Pigeonhole(s, bound - 1);
    }
  }
}
