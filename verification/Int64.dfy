/** Go's int64: two's complement, wrapping on overflow. */
module Int64 {
  const MAX: int := 0x7FFF_FFFF_FFFF_FFFF
  const MIN: int := -0x8000_0000_0000_0000
  const MODULUS: int := 0x1_0000_0000_0000_0000

  predicate Fits(x: int) {
    MIN <= x <= MAX
  }

  type int64 = x: int | Fits(x)

  /** The int64 that 64-bit arithmetic leaves where mathematics has x. */
  function Wrap(x: int): (r: int64)
    ensures r == x <==> Fits(x)
    ensures (r - x) % MODULUS == 0
  {
    (x - MIN) % MODULUS + MIN
  }

  /** Wrapping after every addition is the same as wrapping once at the end. */
  lemma WrapAdd(x: int, y: int)
    ensures Wrap(Wrap(x) + y) == Wrap(x + y)
  {
  }

  /** What lies up to one turn outside 64 bits comes back on the other side. */
  lemma OneTurn(x: int)
    requires -27670116110564327424 <= x < 27670116110564327424
    ensures Wrap(x) ==
              if x > 9223372036854775807 then x - 18446744073709551616
              else if x < -9223372036854775808 then x + 18446744073709551616
              else x
  {
    if x > MAX {
      assert (x - MODULUS - MIN) % MODULUS == (x - MIN) % MODULUS;
    } else if x < MIN {
      assert (x + MODULUS - MIN) % MODULUS == (x - MIN) % MODULUS;
    }
  }
}
