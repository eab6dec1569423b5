/**
 Powers of two, for the depth of the sort and the width of a checksum, and bytes.
 */
module Powers {
  type Byte = b: int | 0 <= b < 256

  function Pow2(k: nat): (n: nat)
    ensures n >= 1
  {
    if k == 0 then 1 else 2 * Pow2(k - 1)
  }
}
