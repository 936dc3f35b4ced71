/** Number widths of the modelled boards. */
module Machine {
  /** `unsigned long` and `u32` are 32 bits wide. */
  const ULONG := 0x1_0000_0000

  type Byte = b: int | 0 <= b < 256

  /** Sums may wrap early. */
  lemma AddMod(a: nat, b: nat)
    ensures (a % ULONG + b) % ULONG == (a + b) % ULONG
  {
    assert a == a / ULONG * ULONG + a % ULONG;
  }
}
