/** A value that may be missing, as Swift's optionals. */
module Options {
  datatype Option<+T> = None | Some(value: T)
}

/**
 * The parts of Swift's `Double` and `Int` that the player's arithmetic uses.
 *
 * A `Double` is a finite value (kept as an exact real, so rounding is not
 * modelled), NaN, or one of the two infinities. Comparisons follow IEEE 754:
 * every comparison with NaN is false. Negative zero is not distinguished.
 */
module Doubles {

  datatype Double = Finite(value: real) | NaN | Infinity(negative: bool)

  const Zero: Double := Finite(0.0)

  /** `x < y` */
  predicate Less(x: Double, y: Double) {
    match (x, y)
    case (NaN, _) => false
    case (_, NaN) => false
    case (Finite(a), Finite(b)) => a < b
    case (Infinity(n), Finite(_)) => n
    case (Finite(_), Infinity(m)) => !m
    case (Infinity(n), Infinity(m)) => n && !m
  }

  /** `x > y` */
  predicate Greater(x: Double, y: Double) {
    Less(y, x)
  }

  /** `x == y` (Swift's `==` on `Double`): NaN equals nothing, itself included */
  predicate Equal(x: Double, y: Double) {
    !x.NaN? && x == y
  }

  /** `x * k` for a positive constant `k` */
  function Scale(x: Double, k: real): (r: Double)
    requires k > 0.0
    ensures r.Finite? <==> x.Finite?
    ensures r.NaN? <==> x.NaN?
    ensures x.Finite? ==> r.value == x.value * k
  {
    match x
    case Finite(v) => Finite(v * k)
    case NaN => NaN
    case Infinity(n) => Infinity(n)
  }

  /** Rounding toward zero, as `Int(_:)` does with a `Double` */
  function Trunc(x: real): (n: int)
    ensures 0.0 <= x ==> 0 <= n && n as real <= x < n as real + 1.0
    ensures x < 0.0 ==> n <= 0 && n as real - 1.0 < x <= n as real
  {
    if x >= 0.0 then x.Floor else -((-x).Floor)
  }

  const IntMin: int := -0x8000_0000_0000_0000
  const IntMax: int := 0x7fff_ffff_ffff_ffff

  /** `Int(x)` does not trap: `x` is finite and its truncation fits in 64 bits */
  predicate ConvertsToInt(x: Double) {
    x.Finite? && IntMin <= Trunc(x.value) <= IntMax
  }

  /** `Int(x)` */
  function ToInt(x: Double): (n: int)
    requires ConvertsToInt(x)
    ensures IntMin <= n <= IntMax
    ensures x.value >= 0.0 ==> 0 <= n && n as real <= x.value < n as real + 1.0
    ensures x.value < 0.0 ==> n <= 0 && n as real - 1.0 < x.value <= n as real
  {
    Trunc(x.value)
  }

  const Int32Min: int := -0x8000_0000
  const Int32Max: int := 0x7fff_ffff

  /** A 64-bit integer read where C expects an `int`: its low 32 bits in two's
      complement. Numbers that fit are unchanged; the others wrap around. */
  function Int32Bits(n: int): (r: int)
    ensures Int32Min <= r <= Int32Max
    ensures Int32Min <= n <= Int32Max ==> r == n
    ensures (n - r) % 0x1_0000_0000 == 0
  {
    (n - Int32Min) % 0x1_0000_0000 + Int32Min
  }

  /** Swift's `n / d`: the quotient rounded toward zero */
  function Quot(n: int, d: int): (q: int)
    requires d > 0
    ensures n >= 0 ==> 0 <= q
    ensures n <= 0 ==> q <= 0
  {
    if n >= 0 then n / d else -((-n) / d)
  }

  /** Swift's `n % d`: the remainder takes the sign of `n` */
  function Rem(n: int, d: int): (r: int)
    requires d > 0
    ensures -d < r < d
    ensures n >= 0 ==> 0 <= r
    ensures n <= 0 ==> r <= 0
  {
    if n >= 0 then n % d else -((-n) % d)
  }

  /** Quotient and remainder recompose `n`, and the remainder is smaller than `d`
      and never of the opposite sign to `n`. */
  lemma QuotRem(n: int, d: int)
    requires d > 0
    ensures Quot(n, d) * d + Rem(n, d) == n
    ensures -d < Rem(n, d) < d
    ensures n >= 0 ==> 0 <= Rem(n, d) && 0 <= Quot(n, d)
    ensures n <= 0 ==> Rem(n, d) <= 0 && Quot(n, d) <= 0
  {
    if n < 0 {
      var m := -n;
      assert (m / d) * d + m % d == m;
    }
  }
}
