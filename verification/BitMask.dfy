/**
 The unsigned bit masks of the program: `mask | (1 << k)` and `(1 << n) - 1` as
 arithmetic on naturals, and what they say about sets of bit numbers.
 */
module BitMask {
  import opened CArithmetic

  /** Bit k of mask. */
  predicate HasBit(mask: nat, k: nat) {
    (mask / Pow2(k)) % 2 == 1
  }

  /** mask | (1 << k) */
  function SetBit(mask: nat, k: nat): nat {
    if HasBit(mask, k) then mask else mask + Pow2(k)
  }

  /** (1 << n) - 1 */
  function Full(n: nat): nat {
    Pow2(n) - 1
  }

  /** The mask whose bits below n are those of s. */
  ghost function MaskOf(s: set<nat>, n: nat): nat {
    if n == 0 then 0 else MaskOf(s, n - 1) + if n - 1 in s then Pow2(n - 1) else 0
  }

  ghost predicate HasAll(s: set<nat>, n: nat) {
    forall k :: 0 <= k < n ==> k in s
  }

  lemma {:induction false} MaskOfBound(s: set<nat>, n: nat)
    ensures MaskOf(s, n) < Pow2(n)
  {
    if n > 0 {
      MaskOfBound(s, n - 1);
    }
  }

  /** The mask of a set is full exactly when the set has every bit number, and is
      numerically less otherwise. */
  lemma {:induction false} MaskFullIff(s: set<nat>, n: nat)
    ensures MaskOf(s, n) == Full(n) <==> HasAll(s, n)
    ensures MaskOf(s, n) < Full(n) <==> !HasAll(s, n)
  {
    MaskOfBound(s, n);
    if n > 0 {
      MaskFullIff(s, n - 1);
      MaskOfBound(s, n - 1);
    }
  }

  lemma {:induction false} Pow2Add(a: nat, b: nat)
    ensures Pow2(a + b) == Pow2(a) * Pow2(b)
  {
    if a > 0 {
      Pow2Add(a - 1, b);
      MulAssoc(2, Pow2(a - 1), Pow2(b));
    }
  }

  /** Adding an even multiple of p leaves the parity of the quotient by p alone. */
  lemma HighBitsIrrelevant(x: nat, p: nat, d: nat)
    requires p >= 1 && d % 2 == 0
    ensures ((x + d * p) / p) % 2 == (x / p) % 2
  {
    var q, r := x / p, x % p;
    MulAdd(q, d, p);
    DivMod(x + d * p, p, q + d, r);
  }

  /** 2^n is an even multiple of 2^k for k < n. */
  lemma HigherPower(n: nat, k: nat)
    requires k < n
    ensures Pow2(n) == (2 * Pow2(n - 1 - k)) * Pow2(k)
  {
    Pow2Add(n - 1 - k, k);
    MulAssoc(2, Pow2(n - 1 - k), Pow2(k));
  }

  lemma {:induction false} MaskHasBit(s: set<nat>, n: nat, k: nat)
    requires k < n
    ensures HasBit(MaskOf(s, n), k) <==> k in s
  {
    var m := n - 1;
    if k == m {
      TopBit(s, m);
    } else {
      MaskHasBit(s, m, k);
      if m in s {
        HigherPower(m, k);
        HighBitsIrrelevant(MaskOf(s, m), Pow2(k), 2 * Pow2(m - 1 - k));
      }
    }
  }

  lemma TopBit(s: set<nat>, m: nat)
    ensures HasBit(MaskOf(s, m + 1), m) <==> m in s
  {
    MaskOfBound(s, m);
    var x, p := MaskOf(s, m), Pow2(m);
    if m in s {
      DivMod(x + p, p, 1, x);
    } else {
      DivMod(x, p, 0, x);
    }
  }

  lemma {:induction false} MaskAdd(s: set<nat>, n: nat, k: nat)
    requires k !in s
    ensures MaskOf(s + {k}, n) == MaskOf(s, n) + if k < n then Pow2(k) else 0
  {
    if n > 0 {
      MaskAdd(s, n - 1, k);
    }
  }

  /** Setting a bit adds its number to the set. */
  lemma SetBitAdds(s: set<nat>, n: nat, k: nat)
    requires k < n
    ensures SetBit(MaskOf(s, n), k) == MaskOf(s + {k}, n)
  {
    MaskHasBit(s, n, k);
    if k in s {
      assert s + {k} == s;
    } else {
      MaskAdd(s, n, k);
    }
  }

  lemma {:induction false} MaskEmpty(n: nat)
    ensures MaskOf({}, n) == 0
  {
    if n > 0 {
      MaskEmpty(n - 1);
    }
  }
}
