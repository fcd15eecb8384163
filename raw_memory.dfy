/** Byte-addressed process memory as seen through ctypes `from_address`: a map from address to
    byte, where an address never written reads as 0. */
module RawMemory {
  import opened Bytes

  type Memory = map<nat, byte>

  function Range(lo: nat, hi: nat): (r: set<nat>)
    ensures forall a: nat :: a in r <==> lo <= a < hi
    decreases hi - lo
  {
    if hi <= lo then {} else {lo} + Range(lo + 1, hi)
  }

  /** The byte at `a` (`c_uint8.from_address(a).value`). */
  function Peek(m: Memory, a: nat): byte
  {
    if a in m then m[a] else 0
  }

  /** `(c_uint8 * |bs|).from_address(addr)[:] = bs`: the bytes at `addr ..` become `bs` and no
      other byte changes. */
  function Store(m: Memory, addr: nat, bs: seq<byte>): (r: Memory)
    ensures r.Keys == m.Keys + Range(addr, addr + |bs|)
    ensures forall a: nat :: Peek(r, a) == if addr <= a < addr + |bs| then bs[a - addr] else Peek(m, a)
  {
    map a | a in m.Keys + Range(addr, addr + |bs|) :: if addr <= a < addr + |bs| then bs[a - addr] else m[a]
  }

  /** `(c_uint8 * n).from_address(a)[:]`. */
  function Load(m: Memory, a: nat, n: nat): (r: seq<byte>)
    ensures |r| == n
    ensures forall k | 0 <= k < n :: r[k] == Peek(m, a + k)
    decreases n
  {
    if n == 0 then [] else [Peek(m, a)] + Load(m, a + 1, n - 1)
  }

  /** The little-endian 8-byte word at `a`. */
  function ReadWord(m: Memory, a: nat): (w: nat)
    ensures w < Pow256(8)
  {
    FromLE(Load(m, a, 8))
  }

  /** Two memories with the same addresses and the same bytes are equal. */
  lemma MemoryExt(m1: Memory, m2: Memory)
    requires m1.Keys == m2.Keys
    requires forall a: nat :: Peek(m1, a) == Peek(m2, a)
    ensures m1 == m2
  {
    forall a | a in m1 ensures m1[a] == m2[a] {
      assert Peek(m1, a) == Peek(m2, a);
    }
  }

  /** Two adjacent stores are one store of the concatenation `whole`, the second starting at
      `at`, right after the first. */
  lemma StoreConcat(m: Memory, addr: nat, xs: seq<byte>, ys: seq<byte>, whole: seq<byte>, at: nat)
    requires whole == xs + ys && at == addr + |xs|
    ensures Store(Store(m, addr, xs), at, ys) == Store(m, addr, whole)
  {
    var l := Store(Store(m, addr, xs), at, ys);
    var r := Store(m, addr, whole);
    assert Range(addr, addr + |xs|) + Range(addr + |xs|, addr + |xs| + |ys|) == Range(addr, addr + |whole|);
    forall a: nat ensures Peek(l, a) == Peek(r, a) {
      if addr <= a < addr + |xs| {
        assert whole[a - addr] == xs[a - addr];
      } else if addr + |xs| <= a < addr + |xs| + |ys| {
        assert whole[a - addr] == ys[a - addr - |xs|];
      }
    }
    MemoryExt(l, r);
  }

  /** Loading part of what was just stored gives the stored bytes. */
  lemma LoadStore(m: Memory, addr: nat, bs: seq<byte>, off: nat, n: nat)
    requires off + n <= |bs|
    ensures Load(Store(m, addr, bs), addr + off, n) == bs[off..off + n]
  {
  }

  /** The word read at `addr + off` after storing `bs` at `addr` is the little-endian value of
      the stored bytes there. */
  lemma ReadStoredWord(m: Memory, addr: nat, bs: seq<byte>, off: nat)
    requires off + 8 <= |bs|
    ensures ReadWord(Store(m, addr, bs), addr + off) == FromLE(bs[off..off + 8])
  {
    LoadStore(m, addr, bs, off, 8);
  }
}
