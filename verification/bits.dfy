/** Powers of two and the single bits of a byte. */
module Bits {

  function Pow2(k: nat): (p: nat)
    ensures p >= 1
  {
    if k == 0 then 1 else 2 * Pow2(k - 1)
  }

  function Mask(i: nat): bv8
    requires i < 8
  {
    if i == 0 then 1 else if i == 1 then 2 else if i == 2 then 4 else if i == 3 then 8
    else if i == 4 then 16 else if i == 5 then 32 else if i == 6 then 64 else 128
  }

  /** Bit `i` of a byte counts 2^i. */
  lemma {:induction false} MaskCounts(i: nat)
    requires i < 8
    ensures Mask(i) as nat == Pow2(i)
  {
  }

  lemma {:induction false} SetMask(x: bv8, i: nat, j: nat)
    requires i < 8 && j < 8
    ensures (x | Mask(i)) & Mask(j) != 0 <==> i == j || x & Mask(j) != 0
  {
  }
}
