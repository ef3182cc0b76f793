/** C integer conversions. */
module CInt {
  function Uint32(n: int): nat {
    n % 0x1_0000_0000
  }

  /** `(uint32_t)` stored into an `int`, or a cast to `int`. */
  function Int32(n: int): int {
    (n + 0x8000_0000) % 0x1_0000_0000 - 0x8000_0000
  }

  function Int8(n: int): int {
    (n + 0x80) % 0x100 - 0x80
  }

  function Uint64(n: int): nat {
    n % 0x1_0000_0000_0000_0000
  }

  /** The conversions keep the value modulo the width, inside the range of the type; this determines them. */
  lemma Conversions(n: int)
    ensures 0 <= Uint32(n) < 0x1_0000_0000 && exists k :: Uint32(n) == n + k * 0x1_0000_0000
    ensures -0x8000_0000 <= Int32(n) < 0x8000_0000 && exists k :: Int32(n) == n + k * 0x1_0000_0000
    ensures -0x80 <= Int8(n) < 0x80 && exists k :: Int8(n) == n + k * 0x100
    ensures 0 <= Uint64(n) < 0x1_0000_0000_0000_0000 && exists k :: Uint64(n) == n + k * 0x1_0000_0000_0000_0000
  {
    assert Uint32(n) == n + -(n / 0x1_0000_0000) * 0x1_0000_0000;
    assert Int32(n) == n + -((n + 0x8000_0000) / 0x1_0000_0000) * 0x1_0000_0000;
    assert Int8(n) == n + -((n + 0x80) / 0x100) * 0x100;
    assert Uint64(n) == n + -(n / 0x1_0000_0000_0000_0000) * 0x1_0000_0000_0000_0000;
  }

  lemma Int32Range(n: int)
    ensures -0x8000_0000 <= Int32(n) < 0x8000_0000
    ensures Int32(n) == n <==> -0x8000_0000 <= n < 0x8000_0000
  {}
}
