/**
 Integer arithmetic of C, and the facts about products, quotients and
 remainders that the timing proofs rest on.
 */
module CArithmetic {

  /** The remainder and the quotient of C, which truncate toward zero. */
  function CMod(a: int, n: int): int
    requires n > 0
  {
    if a >= 0 then a % n else -((-a) % n)
  }

  function CDiv(a: int, n: int): int
    requires n > 0
  {
    if a >= 0 then a / n else -((-a) / n)
  }

  lemma Positive(a: nat, b: nat)
    requires a >= 1 && b >= 1
    ensures a * b >= 1
  {}

  lemma MulStep(q: nat, n: nat)
    ensures (q + 1) * n == q * n + n
  {}

  lemma Mono(a: nat, b: nat, n: nat)
    requires a <= b
    ensures a * n <= b * n
  {}

  /** Quotient and remainder are unique. */
  lemma DivMod(a: nat, n: nat, q: nat, r: nat)
    requires a == q * n + r && r < n
    ensures a / n == q && a % n == r
  {
    var q' := a / n;
    if q' < q {
      MulStep(q', n);
      Mono(q' + 1, q, n);
    } else if q' > q {
      MulStep(q, n);
      Mono(q + 1, q', n);
    }
  }

  lemma Euclid(a: nat, n: nat)
    requires n > 0
    ensures a == (a / n) * n + a % n && a % n < n
  {}

  lemma DivSucc(s: nat, h: nat)
    requires h >= 1
    ensures if s % h == h - 1 then (s + 1) / h == s / h + 1 && (s + 1) % h == 0
            else (s + 1) / h == s / h && (s + 1) % h == s % h + 1
  {
    var q, r := s / h, s % h;
    MulStep(q, h);
    if r == h - 1 {
      DivMod(s + 1, h, q + 1, 0);
    } else {
      DivMod(s + 1, h, q, r + 1);
    }
  }

  lemma QuotientBound(a: nat, n: nat, m: nat)
    requires n > 0 && a < m * n
    ensures a / n < m
  {
    if a / n >= m {
      Mono(m, a / n, n);
    }
  }

  lemma MulAssoc(a: nat, b: nat, c: nat)
    ensures a * (b * c) == (a * b) * c
  {}

  lemma MulAdd(a: nat, b: nat, c: nat)
    ensures (a + b) * c == a * c + b * c
  {}

  lemma MonoInt(a: int, b: int, n: nat)
    requires a <= b
    ensures a * n <= b * n
  {}

  /** Frame numbers count modulo 1024. */
  lemma WrapSucc(q: nat)
    ensures (q + 1) % 1024 == (q % 1024 + 1) % 1024
  {}

  function Pow2(k: nat): (p: nat)
    ensures p >= 1
  {
    if k == 0 then 1 else 2 * Pow2(k - 1)
  }
}
