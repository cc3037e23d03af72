/** Bytes, numbers and their bits. */
module Bits {
  type Byte = b: int | 0 <= b < 256 witness 0

  function Pow2(n: nat): nat {
    if n == 0 then 1 else 2 * Pow2(n - 1)
  }

  // x >> n
  function Shifted(x: nat, n: nat): nat {
    if n == 0 then x else Shifted(x, n - 1) / 2
  }

  // Bit j of a byte, counted from its most significant end.
  function ByteBit(x: Byte, j: nat): nat
    requires j < 8
  {
    Shifted(x, 7 - j) % 2
  }

  lemma Shifted8(x: nat, n: nat)
    ensures Shifted(x, n + 8) == Shifted(x, n) / 256
  {
    assert Shifted(x, n + 2) == Shifted(x, n + 1) / 2;
    assert Shifted(x, n + 4) == Shifted(x, n + 3) / 2;
    assert Shifted(x, n + 6) == Shifted(x, n + 5) / 2;
    assert Shifted(x, n + 8) == Shifted(x, n + 7) / 2;
  }
}
