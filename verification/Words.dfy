/** Bytes, 64-bit words and the rounding the loader applies to addresses. */
module Words {

  type byte = x: int | 0 <= x < 0x100

  type u64 = x: int | 0 <= x < 0x1_0000_0000_0000_0000

  /** The address just above the user half of the x86-64 address space; mmap never maps at or above it. */
  const USER_TOP: nat := 0x8000_0000_0000

  /** Unsigned 64-bit wrap-around. */
  function U64(x: int): (r: u64) {
    x % 0x1_0000_0000_0000_0000
  }

  function PageDown(a: nat): (r: nat) {
    a / 0x1000 * 0x1000
  }

  function PageUp(a: nat): (r: nat) {
    (a + 0xfff) / 0x1000 * 0x1000
  }

  /** Rounds up to the 4 MiB step between binaries. */
  function StepUp(a: nat): (r: nat) {
    (a + 0x3f_ffff) / 0x40_0000 * 0x40_0000
  }

  lemma AddModulo(a: int, x: int)
    ensures U64(a + U64(x)) == U64(a + x)
  {
  }

  lemma SmallIsItself(v: u64)
    ensures U64(v) == v
  {
  }

  lemma StepUpBounds(a: nat)
    ensures a <= StepUp(a) < a + 0x40_0000
    ensures StepUp(a) % 0x40_0000 == 0
  {
  }

  /** Pages are 0x1000 bytes. */
  lemma PageBounds(a: nat)
    ensures PageDown(a) % 0x1000 == 0 && PageDown(a) <= a < PageDown(a) + 0x1000
    ensures PageUp(a) % 0x1000 == 0 && a <= PageUp(a) < a + 0x1000
  {
  }

  lemma PageDownMonotone(a: nat, b: nat)
    requires a <= b
    ensures PageDown(a) <= PageDown(b)
  {
  }

  lemma PageDownAbove(base: nat, v: nat)
    ensures base % 0x40_0000 == 0 ==> PageDown(v + base) >= base
  {
  }

  /** A span from an aligned base rounds up to the base plus the rounded span. */
  lemma StepUpFromBase(base: nat, span: nat)
    requires base % 0x40_0000 == 0
    ensures StepUp(base + span) == base + StepUp(span)
    ensures StepUp(base + span) % 0x40_0000 == 0
  {
  }

  /** The n low-order bytes of v, least significant first. */
  function Bytes(v: nat, n: nat): (s: seq<byte>)
    ensures |s| == n
  {
    if n == 0 then [] else [v % 0x100] + Bytes(v / 0x100, n - 1)
  }

  /** The little-endian value of a byte string. */
  function Value(s: seq<byte>): (v: nat) {
    if s == [] then 0 else s[0] + 0x100 * Value(s[1..])
  }

  function Pow256(n: nat): (r: nat)
    ensures r > 0
  {
    if n == 0 then 1 else 0x100 * Pow256(n - 1)
  }

  lemma {:induction false} ValueOfBytes(v: nat, n: nat)
    requires v < Pow256(n)
    ensures Value(Bytes(v, n)) == v
  {
    if n > 0 {
      assert v / 0x100 < Pow256(n - 1);
      ValueOfBytes(v / 0x100, n - 1);
      assert Bytes(v, n)[1..] == Bytes(v / 0x100, n - 1);
    }
  }

  /** Storing a 64-bit word and reading it back gives the word. */
  lemma WordRoundTrip(v: u64)
    ensures Value(Bytes(v, 8)) == v
  {
    assert Pow256(4) == 0x1_0000_0000;
    assert Pow256(6) == 0x1_0000_0000_0000;
    assert Pow256(8) == 0x1_0000_0000_0000_0000;
    ValueOfBytes(v, 8);
  }
}
