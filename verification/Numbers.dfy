/** Small arithmetic the other modules share. */
module Numbers {
  function Min(a: nat, b: nat): nat { if a <= b then a else b }

  function Max(a: nat, b: nat): nat { if a >= b then a else b }

  /** One for true, zero for false. */
  function Bit(b: bool): nat { if b then 1 else 0 }
}
