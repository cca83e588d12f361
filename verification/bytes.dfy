/** Octets, the fixed-width integers the programs store in them, and their byte orders. */
module Bytes {
  type byte = b: int | 0 <= b < 0x100
  type u16 = n: int | 0 <= n < 0x1_0000
  type u32 = n: int | 0 <= n < 0x1_0000_0000

  const TWO32: nat := 0x1_0000_0000

  function Min(a: nat, b: nat): nat { if a < b then a else b }

  // Casts with `as`: the high bits are lost.
  function ToU16(n: nat): u16 { n % 0x1_0000 }
  function ToU32(n: nat): u32 { n % 0x1_0000_0000 }

  function Le16(n: u16): (s: seq<byte>)
    ensures |s| == 2
  {
    [n % 0x100, n / 0x100]
  }

  function Be16(n: u16): (s: seq<byte>)
    ensures |s| == 2
  {
    [n / 0x100, n % 0x100]
  }

  function Le32(n: u32): (s: seq<byte>)
    ensures |s| == 4
  {
    [n % 0x100, n / 0x100 % 0x100, n / 0x1_0000 % 0x100, n / 0x100_0000]
  }

  function Be32(n: u32): (s: seq<byte>)
    ensures |s| == 4
  {
    [n / 0x100_0000, n / 0x1_0000 % 0x100, n / 0x100 % 0x100, n % 0x100]
  }

  function FromLe16(s: seq<byte>): u16
    requires |s| == 2
  {
    s[0] as int + 0x100 * s[1] as int
  }

  function FromBe16(s: seq<byte>): u16
    requires |s| == 2
  {
    0x100 * s[0] as int + s[1] as int
  }

  function FromLe32(s: seq<byte>): u32
    requires |s| == 4
  {
    s[0] as int + 0x100 * s[1] as int + 0x1_0000 * s[2] as int + 0x100_0000 * s[3] as int
  }

  function FromBe32(s: seq<byte>): u32
    requires |s| == 4
  {
    0x100_0000 * s[0] as int + 0x1_0000 * s[1] as int + 0x100 * s[2] as int + s[3] as int
  }

  lemma Digits(n: u32)
    ensures n == 0x100_0000 * (n / 0x100_0000) + 0x1_0000 * (n / 0x1_0000 % 0x100) + 0x100 * (n / 0x100 % 0x100) + n % 0x100
  {
    var a, b, c := n / 0x100, n / 0x1_0000, n / 0x100_0000;
    assert a == 0x100 * (n / 0x1_0000) + a % 0x100;
    assert b == 0x100 * c + b % 0x100;
  }

  lemma BigEndian(n: u32)
    ensures FromBe32(Be32(n)) == n
  {
    Digits(n);
  }

  lemma LittleEndian(n: u32)
    ensures FromLe32(Le32(n)) == n
  {
    Digits(n);
  }

  function Zeros(n: nat): (s: seq<byte>)
    ensures |s| == n
    ensures forall i :: 0 <= i < n ==> s[i] == 0
  {
    seq(n, _ => 0)
  }

  // Bitwise operators, digit by binary digit.
  function BitAnd(a: nat, b: nat): (r: nat)
    ensures r <= a && r <= b
  {
    if a == 0 || b == 0 then 0 else (a % 2) * (b % 2) + 2 * BitAnd(a / 2, b / 2)
  }

  function BitXor(a: nat, b: nat): nat {
    if a == 0 then b
    else if b == 0 then a
    else (a + b) % 2 + 2 * BitXor(a / 2, b / 2)
  }

  // An erased octet has every bit set, so and-ing into it stores the other operand.
  lemma AndOnes(a: byte)
    ensures BitAnd(0xFF, a) == a
  {
    AndMask(8, a);
  }

  function Ones(bits: nat): nat {
    if bits == 0 then 0 else 1 + 2 * Ones(bits - 1)
  }

  lemma {:induction false} AndMask(bits: nat, a: nat)
    requires a <= Ones(bits)
    ensures BitAnd(Ones(bits), a) == a
  {
    if bits > 0 && a > 0 {
      AndMask(bits - 1, a / 2);
    }
  }
}
