/** The process address space: a byte for every mapped address. */
module Memory {
  import opened Words

  type Mem = map<nat, byte>

  predicate Mapped(m: Mem, a: nat, n: nat) {
    forall k: nat :: a <= k < a + n ==> k in m
  }

  predicate Free(m: Mem, lo: nat, hi: nat) {
    forall k: nat :: lo <= k < hi ==> k !in m
  }

  predicate Within(k: nat, lo: nat, hi: nat) {
    lo <= k < hi
  }

  function Fetch(m: Mem, a: nat, n: nat): (s: seq<byte>)
    requires Mapped(m, a, n)
    ensures |s| == n
    ensures forall i: nat {:trigger s[i]} :: i < n ==> s[i] == m[a + i]
  {
    seq(n, i requires 0 <= i < n => m[a + i])
  }

  function Store(m: Mem, a: nat, s: seq<byte>): (m': Mem)
    requires Mapped(m, a, |s|)
    ensures m'.Keys == m.Keys
  {
    map k | k in m :: if a <= k < a + |s| then s[k - a] else m[k]
  }

  lemma StoreAt(m: Mem, a: nat, s: seq<byte>, k: nat)
    requires Mapped(m, a, |s|) && k in m
    ensures k in Store(m, a, s) && Store(m, a, s)[k] == if a <= k < a + |s| then s[k - a] else m[k]
  {
  }

  /** An anonymous mapping: the addresses lo..hi, all zero. */
  function MapZero(m: Mem, lo: nat, hi: nat): (m': Mem)
    ensures forall k: nat :: k in m' <==> k in m || lo <= k < hi
    ensures forall k: nat {:trigger m'[k]} :: k in m' ==> m'[k] == if lo <= k < hi then 0 else m[k]
  {
    m + map k: nat | lo <= k < hi && Within(k, lo, hi) :: 0
  }

  /** The 64-bit word at a. */
  function WordAt(m: Mem, a: nat): (v: nat)
    requires Mapped(m, a, 8)
  {
    Value(Fetch(m, a, 8))
  }

  /** A word that reads as v exactly because its eight bytes are v's. */
  lemma WordFromBytes(m: Mem, a: nat, v: u64)
    requires Mapped(m, a, 8)
    requires forall i: nat :: i < 8 ==> m[a + i] == Bytes(v, 8)[i]
    ensures WordAt(m, a) == v
  {
    assert Fetch(m, a, 8) == Bytes(v, 8);
    WordRoundTrip(v);
  }
}
