/** Fixed-width integers, written out over unbounded ones: the widths, the wrap-around
    and the truncating division that the Rust and C code relies on. */
module Machine {

  datatype Option<+T> = None | Some(value: T)

  const TWO32 := 0x1_0000_0000
  const TWO63 := 0x8000_0000_0000_0000
  const TWO64 := 0x1_0000_0000_0000_0000

  type byte = b: int | 0 <= b < 0x100
  type u32 = x: int | 0 <= x < 0x1_0000_0000
  type u64 = x: int | 0 <= x < 0x1_0000_0000_0000_0000
  type i64 = x: int | -0x8000_0000_0000_0000 <= x < 0x8000_0000_0000_0000

  const I64_MIN: i64 := -0x8000_0000_0000_0000

  /** The low 64 bits of `x`. */
  function WrapU(x: int): (r: u64) {
    x % 0x1_0000_0000_0000_0000
  }

  /** The low 64 bits of `x`, read as a two's-complement number. */
  function WrapS(x: int): (r: i64) {
    var m := x % 0x1_0000_0000_0000_0000;
    if m < 0x8000_0000_0000_0000 then m else m - 0x1_0000_0000_0000_0000
  }

  predicate FitsI64(x: int) {
    -0x8000_0000_0000_0000 <= x < 0x8000_0000_0000_0000
  }

  function Abs(x: int): nat {
    if x < 0 then -x else x
  }

  /** Division that rounds toward zero, as `/` does in Rust and `div_s64` in the kernel. */
  function TruncDiv(a: int, b: int): (q: int)
    requires b > 0
    ensures Abs(a - q * b) < b
    ensures 0 <= a ==> 0 <= q * b <= a
    ensures a <= 0 ==> a <= q * b <= 0
  {
    QuotientBounds(Abs(a), b);
    var m := Abs(a) / b;
    if a >= 0 then m else -m
  }

  lemma QuotientBounds(n: nat, b: int)
    requires b > 0
    ensures var m := n / b; 0 <= m * b <= n < m * b + b && -m * b == -(m * b)
  {
  }

  lemma TruncBounds(delta: i64)
    ensures var q := TruncDiv(delta, 1000); Abs(q) <= TWO63 / 1000 && -1000 < 1000 * q - delta < 1000
  {
  }

  /** Wrapping drops a multiple of 2^64 and nothing else. */
  lemma WrapQuotients(x: int) returns (unsigned: int, signed: int)
    ensures WrapU(x) == x - unsigned * 0x1_0000_0000_0000_0000
    ensures WrapS(x) == x - signed * 0x1_0000_0000_0000_0000
  {
    unsigned := x / 0x1_0000_0000_0000_0000;
    signed := if WrapS(x) < 0 then unsigned + 1 else unsigned;
  }

  /** Numbers a multiple of 2^64 apart wrap alike, and wrapping does nothing in range. */
  lemma WrapCongruent(x: int, y: int, k: int)
    requires x == y + k * 0x1_0000_0000_0000_0000
    ensures WrapS(x) == WrapS(y) && WrapU(x) == WrapU(y)
    ensures FitsI64(y) ==> WrapS(x) == y
    ensures 0 <= y < TWO64 ==> WrapU(x) == y
  {
    assert x % 0x1_0000_0000_0000_0000 == y % 0x1_0000_0000_0000_0000;
  }

  /** Wrapping is determined by range and remainder. */
  lemma WrapUnique(x: i64, y: int, k: int)
    requires x == y + k * 0x1_0000_0000_0000_0000
    ensures x == WrapS(y)
  {
  }
}
