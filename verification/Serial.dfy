/** 32-bit machine arithmetic as the C code uses it: unsigned wrap-around, signed
    reinterpretation, and the serial-number difference of ikcp.c. */
module Serial {
  const M32: int := 0x1_0000_0000
  const H32: int := 0x8000_0000

  type u32 = x: int | 0 <= x < 0x1_0000_0000
  type i32 = x: int | -0x8000_0000 <= x < 0x8000_0000

  /** Truncation of any integer to 32 unsigned bits. */
  function U32(x: int): u32 {
    x % 0x1_0000_0000
  }

  /** Truncation of any integer to 32 signed bits (two's complement). */
  function I32(x: int): i32 {
    if -H32 <= x < H32 then x
    else
      var u := U32(x);
      if u < H32 then u else u - M32
  }

  function Add(a: u32, b: u32): u32 {
    if a + b < M32 then a + b else a + b - M32
  }

  function Sub(a: u32, b: u32): u32 {
    if a >= b then a - b else a - b + M32
  }

  function Mul(a: u32, b: u32): u32 {
    U32(a * b)
  }

  /** Unsigned division; no caller divides by 0 (mss is never below 26). */
  function Div(a: u32, b: u32): u32 {
    if b == 0 then 0 else Quotient(a, b)
  }

  function Quotient(a: nat, b: nat): (q: nat)
    requires b > 0
    ensures q * b <= a < (q + 1) * b
    ensures q <= a
  {
    QuotientBounds(a, b);
    a / b
  }

  lemma QuotientBounds(a: nat, b: nat)
    requires b > 0
    ensures 0 <= a / b <= a
    ensures a / b * b <= a < (a / b + 1) * b
  {
    var q := a / b;
    assert a == b * q + a % b;
    MulAtLeast(q, b);
    Distribute(q, 1, b);
  }

  lemma {:induction false} MulAtLeast(q: nat, b: nat)
    requires b > 0
    ensures q * b >= q
  {
    if q > 0 {
      MulAtLeast(q - 1, b);
      Distribute(q - 1, 1, b);
    }
  }

  lemma Distribute(x: int, y: int, b: int)
    ensures (x + y) * b == x * b + y * b
  {
  }

  /** _itimediff: the signed reading of later - earlier. */
  function Diff(later: u32, earlier: u32): i32 {
    var d := Sub(later, earlier);
    if d < H32 then d else d - M32
  }

  function Min(a: int, b: int): int {
    if a <= b then a else b
  }

  function Max(a: int, b: int): int {
    if a >= b then a else b
  }

  /** Integer division as C does it: towards zero. */
  function CDiv(a: int, b: int): int
    requires b > 0
  {
    if a >= 0 then a / b else -((-a) / b)
  }

  lemma SignedReading(x: int)
    ensures I32(x) == if U32(x) < H32 then U32(x) else U32(x) - M32
  {
    if 0 <= x < H32 {
      assert U32(x) == x;
    } else if -H32 <= x < 0 {
      assert U32(x) == x + M32;
    }
  }

  /** The unsigned operations are the ring operations modulo 2^32. */
  lemma AddSubAreModular(a: u32, b: u32)
    ensures Add(a, b) == U32(a + b)
    ensures Sub(a, b) == U32(a - b)
    ensures Diff(a, b) == I32(a - b)
  {
    if a >= b {
      assert U32(a - b) == a - b;
    } else {
      assert U32(a - b) == a - b + M32;
    }
    SignedReading(a - b);
  }
}
