/**
 Arrays of ten entries indexed by subframe number, such as symbol_mask and
 RU_mask: which of the next ten subframes an entry stands for.
 */
module SubframeRing {

  /** The subframe at or after k that uses entry r. */
  function Using(k: nat, r: nat): (j: nat)
    requires r < 10
    ensures k <= j <= k + 9 && j % 10 == r
  {
    if r >= k % 10 then k - k % 10 + r else k - k % 10 + 10 + r
  }

  lemma UsingUnique(k: nat, j: nat)
    requires k <= j <= k + 9
    ensures Using(k, j % 10) == j
  {
    Near(k, j, Using(k, j % 10));
  }

  /** Ten subframes in a row have different numbers. */
  lemma Near(k: nat, i: nat, j: nat)
    requires k <= i <= k + 9 && k <= j <= k + 9 && i % 10 == j % 10
    ensures i == j
  {}

  /** Moving on by one frees one entry, for the subframe ten later. */
  lemma UsingMoves(k: nat, r: nat)
    requires r < 10
    ensures Using(k + 1, r) == if r == k % 10 then k + 10 else Using(k, r)
  {
    if r == k % 10 {
      UsingUnique(k + 1, k + 10);
    } else {
      UsingUnique(k + 1, Using(k, r));
    }
  }
}
