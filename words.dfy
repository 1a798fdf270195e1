/** Fixed-width unsigned integers of the PAL perf tracer, with C's wrap-around
    arithmetic written out. */
module Words {

  const TWO_32: int := 0x1_0000_0000
  const TWO_64: int := 0x1_0000_0000_0000_0000

  /** DWORD */
  type u32 = x: int | 0 <= x < 0x1_0000_0000
  /** ULONGLONG */
  type u64 = x: int | 0 <= x < 0x1_0000_0000_0000_0000
  /** `long` on an LP64 Unix host, the result type of strtol */
  type i64 = x: int | -0x8000_0000_0000_0000 <= x < 0x8000_0000_0000_0000

  /** _UI64_MAX */
  const U64_MAX: u64 := 0xFFFF_FFFF_FFFF_FFFF

  /** ULONGLONG `a + b`: a sum of 2^64 or more wraps around once */
  function Add64(a: u64, b: u64): u64 {
    if a + b < TWO_64 then a + b else a + b - TWO_64
  }

  /** ULONGLONG `a - b`: a negative difference wraps around once */
  function Sub64(a: u64, b: u64): u64 {
    if a >= b then a - b else a - b + TWO_64
  }

  /** DWORD `a + b`: a sum of 2^32 or more wraps around once */
  function Add32(a: u32, b: u32): u32 {
    if a + b < TWO_32 then a + b else a + b - TWO_32
  }

  /** The C cast `(DWORD) x` of a non-negative value: keeps the low 32 bits */
  function ToDword(x: nat): u32 {
    x % TWO_32
  }

  function Min(a: u64, b: u64): u64 {
    if a <= b then a else b
  }

  function Max(a: u64, b: u64): u64 {
    if a >= b then a else b
  }

  /** The wrapping operations are arithmetic modulo 2^64 and 2^32. */
  lemma WrapsModulo(a: u64, b: u64, x: u32, y: u32)
    ensures Add64(a, b) == (a + b) % TWO_64
    ensures Sub64(a, b) == (a - b) % TWO_64
    ensures Add32(x, y) == (x + y) % TWO_32
  {
  }

  lemma SmallMod64(x: int)
    requires 0 <= x < TWO_64
    ensures x % TWO_64 == x
  {
  }

  /** Adding wrapped partial sums is the same as wrapping the whole sum. */
  lemma AddMod64(a: int, b: int)
    ensures (a % TWO_64 + b) % TWO_64 == (a + b) % TWO_64
  {
    var q := a / TWO_64;
    assert a == q * TWO_64 + a % TWO_64;
  }

  lemma AddMod32(a: int, b: int)
    ensures (a % TWO_32 + b) % TWO_32 == (a + b) % TWO_32
  {
    var q := a / TWO_32;
    assert a == q * TWO_32 + a % TWO_32;
  }

  /** Adding a count, already reduced to a DWORD, to a DWORD counter is
      adding the whole count and reducing once */
  lemma Add32Reduced(x: u32, y: u32, c: nat)
    requires y == c % TWO_32
    ensures Add32(x, y) == (x + c) % TWO_32
  {
    WrapsModulo(0, 0, x, y);
    AddMod32(c, x);
  }
}
