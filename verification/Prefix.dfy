/** Byte order and address prefixes: the arithmetic behind include/dpdk/spi/spi_ip_address.hpp. */
module Prefix {
  import opened Machine

  // ---------------------------------------------------------------- byte order

  function Swap16(x: U16): U16 {
    x % 256 * 256 + x / 256
  }

  function Swap32(x: U32): U32 {
    Swap16(x % 0x1_0000) * 0x1_0000 + Swap16(x / 0x1_0000)
  }

  lemma SwapTwice16(y: U16)
    ensures Swap16(Swap16(y)) == y
  {
    RemainderUnique(Swap16(y), 256, y % 256, y / 256);
  }

  lemma SwapTwice(x: U32)
    ensures Swap32(Swap32(x)) == x
  {
    hide Swap16;
    var lo: U16, hi: U16 := x % 0x1_0000, x / 0x1_0000;
    assert Swap32(x) % 0x1_0000 == Swap16(hi) && Swap32(x) / 0x1_0000 == Swap16(lo);
    SwapTwice16(lo);
    SwapTwice16(hi);
  }

  // ---------------------------------------------------------------- prefixes

  function Pow2(n: nat): (r: int)
    ensures r >= 1
  {
    if n == 0 then 1 else 2 * Pow2(n - 1)
  }

  /** Bitwise conjunction of the low `bits` bits. */
  function And(x: nat, y: nat, bits: nat): (r: nat)
    ensures r <= x
  {
    if bits == 0 then 0 else 2 * And(x / 2, y / 2, bits - 1) + if x % 2 == 1 && y % 2 == 1 then 1 else 0
  }

  function PrefixMask(length: nat): U32 {
    if length == 0 then 0
    else if length >= 32 then 0xFFFF_FFFF
    else
      Pow2Values();
      assert Pow2(32 - length) <= Pow2(32) by { Pow2Monotone(32 - length, 32); }
      TWO_32 - Pow2(32 - length)
  }

  lemma Pow2Values()
    ensures Pow2(8) == 256 && Pow2(12) == 4096 && Pow2(16) == 0x1_0000 && Pow2(32) == TWO_32
  {
    assert Pow2(4) == 16;
    Pow2Adds(4, 4);
    Pow2Adds(8, 4);
    Pow2Adds(8, 8);
    Pow2Adds(16, 16);
  }

  lemma {:induction false} Pow2Adds(a: nat, b: nat)
    ensures Pow2(a + b) == Pow2(a) * Pow2(b)
  {
    if b > 0 {
      Pow2Adds(a, b - 1);
      assert Pow2(a) * (2 * Pow2(b - 1)) == 2 * (Pow2(a) * Pow2(b - 1));
    }
  }

  lemma {:induction false} Pow2Monotone(a: nat, b: nat)
    requires a <= b
    ensures Pow2(a) <= Pow2(b)
    decreases b - a
  {
    if a < b {
      Pow2Monotone(a + 1, b);
    }
  }

  lemma {:induction false} AndWithNothing(x: nat, bits: nat)
    ensures And(x, 0, bits) == 0
  {
    if bits > 0 {
      AndWithNothing(x / 2, bits - 1);
    }
  }

  /** The number formed by the low `n` bits. */
  function LowBits(x: nat, n: nat): nat {
    if n == 0 then 0 else 2 * LowBits(x / 2, n - 1) + x % 2
  }

  lemma {:induction false} LowBitsIsRemainder(x: nat, n: nat)
    ensures LowBits(x, n) == x % Pow2(n)
  {
    if n > 0 {
      LowBitsIsRemainder(x / 2, n - 1);
      HalfRemainder(x, Pow2(n - 1));
    }
  }

  /** `bits - host` ones followed by `host` zeros. */
  function Ones(bits: nat, host: nat): nat
    requires host <= bits
  {
    if bits == 0 then 0 else if host == 0 then 2 * Ones(bits - 1, 0) + 1 else 2 * Ones(bits - 1, host - 1)
  }

  lemma {:induction false} OnesValue(bits: nat, host: nat)
    requires host <= bits
    ensures Ones(bits, host) == Pow2(bits) - Pow2(host)
  {
    if bits > 0 {
      OnesValue(bits - 1, if host == 0 then 0 else host - 1);
    }
  }

  /** Conjunction with a prefix of ones clears the low bits. */
  lemma {:induction false} AndWithPrefix(x: nat, bits: nat, host: nat)
    requires host <= bits && x < Pow2(bits)
    ensures And(x, Ones(bits, host), bits) == x - LowBits(x, host)
  {
    if bits > 0 {
      hide And;
      if host == 0 {
        AndWithPrefix(x / 2, bits - 1, 0);
        AndOdd(x, Ones(bits - 1, 0), bits);
      } else {
        AndWithPrefix(x / 2, bits - 1, host - 1);
        AndEven(x, Ones(bits - 1, host - 1), bits);
      }
    }
  }

  lemma AndOdd(x: nat, k: nat, bits: nat)
    requires bits > 0
    ensures And(x, 2 * k + 1, bits) == 2 * And(x / 2, k, bits - 1) + x % 2
  {}

  lemma AndEven(x: nat, k: nat, bits: nat)
    requires bits > 0
    ensures And(x, 2 * k, bits) == 2 * And(x / 2, k, bits - 1)
  {}

  lemma HalfRemainder(x: nat, m: nat)
    requires m >= 1
    ensures x % (2 * m) == 2 * (x / 2 % m) + x % 2
  {
    var q, r := x / 2 / m, x / 2 % m;
    assert x / 2 == m * q + r;
    assert x == 2 * m * q + (2 * r + x % 2);
    RemainderUnique(x, 2 * m, q, 2 * r + x % 2);
  }

  lemma RemainderUnique(x: int, m: int, q: int, r: int)
    requires 0 <= r < m && x == m * q + r
    ensures x / m == q && x % m == r
  {
    var a, b := x / m, x % m;
    assert x == m * a + b;
    DivisionUnique(m, a, b, q, r);
  }

  lemma DivisionUnique(m: int, a: int, b: int, q: int, r: int)
    requires 0 <= r < m && 0 <= b < m && m * a + b == m * q + r
    ensures a == q && b == r
  {
    Scaled(m, a - q);
    assert m * (a - q) == r - b;
  }

  lemma Scaled(m: int, d: int)
    requires m >= 1
    ensures d >= 1 ==> m * d >= m
    ensures d <= -1 ==> m * d <= -m
  {
    if d >= 1 {
      assert m * d == m + m * (d - 1) && m * (d - 1) >= 0;
    } else if d <= -1 {
      assert m * d == -m + m * (d + 1) && m * (d + 1) <= 0;
    }
  }

  /** Masking an address with a prefix mask clears its host bits. */
  lemma MaskClearsHostBits(x: U32, length: nat)
    requires length <= 32
    ensures And(x, PrefixMask(length), 32) == x - x % Pow2(32 - length)
  {
    hide And, LowBits, Ones;
    Pow2Values();
    assert Pow2(0) == 1;
    hide Pow2;
    if length == 0 {
      AndWithNothing(x, 32);
    } else {
      AndWithPrefix(x, 32, 32 - length);
      OnesValue(32, 32 - length);
      LowBitsIsRemainder(x, 32 - length);
    }
  }

  /** The addresses `network + host` of the host expansion of a /`length` network are exactly the addresses
      whose masked prefix is that network, and none of the additions wraps. */
  lemma HostExpansionCoversPrefix(network: U32, length: nat, x: U32)
    requires length <= 32 && And(network, PrefixMask(length), 32) == network
    ensures And(x, PrefixMask(length), 32) == network <==>
            exists host: nat :: host < Pow2(32 - length) && x == Add32(network, host)
    ensures network + Pow2(32 - length) <= TWO_32
  {
    hide Pow2, And, PrefixMask;
    MaskClearsHostBits(x, length);
    MaskClearsHostBits(network, length);
    NoWrap(network, length);
    HostsOfNetwork(network, Pow2(32 - length), x);
  }

  lemma HostsOfNetwork(network: U32, size: int, x: U32)
    requires size >= 1 && network % size == 0 && network + size <= TWO_32
    ensures x - x % size == network <==> exists host: nat :: host < size && x == Add32(network, host)
  {
    if x - x % size == network {
      AddInRange(network, x % size);
    }
    forall host: nat | host < size && x == Add32(network, host) ensures x - x % size == network {
      AddInRange(network, host);
      HostOfNetwork(network, size, host);
    }
  }

  lemma AddInRange(a: U32, b: nat)
    requires a + b < TWO_32
    ensures Add32(a, b) == a + b
  {}

  lemma HostOfNetwork(network: nat, size: int, host: nat)
    requires host < size && network % size == 0
    ensures (network + host) % size == host
  {
    assert network == size * (network / size);
    RemainderUnique(network + host, size, network / size, host);
  }

  lemma NoWrap(network: U32, length: nat)
    requires length <= 32 && network % Pow2(32 - length) == 0
    ensures network + Pow2(32 - length) <= TWO_32
  {
    Pow2Values();
    Pow2Adds(length, 32 - length);
    hide Pow2;
    var size, count := Pow2(32 - length), Pow2(length);
    assert count * size == size * count;
    MultipleBelow(network, size, count);
  }

  lemma MultipleBelow(x: nat, size: int, count: int)
    requires size >= 1 && x % size == 0 && x < size * count
    ensures x + size <= size * count
  {
    var q := x / size;
    assert x == size * q;
    assert size * (count - q) == size * count - x;
    Scaled(size, count - q);
  }
}
