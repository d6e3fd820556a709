/** Arithmetic that several components use. */
module Numbers {
  function Max(x: nat, y: nat): nat { if x < y then y else x }

  function Min(x: nat, y: nat): (m: nat)
    ensures m <= x && m <= y
  {
    if x < y then x else y
  }

  function Pow2(k: nat): (p: nat)
    ensures p > 0
  {
    if k == 0 then 1 else 2 * Pow2(k - 1)
  }
}
