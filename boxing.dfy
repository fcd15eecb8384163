/** Lean 4 tagged scalars: a word whose low bit is 1 carries the scalar in its other bits
    (lean2py/lean2py/ffi.py:20-30, 103-108). Words are naturals; Python's `& 0xFFFFFFFF`,
    `<< 1`, `>> 1` and `| 1` on non-negative values are written out as arithmetic. */
module Boxing {
  import opened Failures

  const TwoTo32: nat := 0x1_0000_0000

  /** `x & 0xFFFFFFFF` on a Python int of either sign. */
  function Mask32(x: int): (r: nat)
    ensures r < TwoTo32
    ensures (x - r) % TwoTo32 == 0
  {
    x % TwoTo32
  }

  /** `_lean_box_u32`: `((x & 0xFFFFFFFF) << 1) | 1`. The tag bit is set and the payload is the
      low 32 bits of `x`, so the word fits in 33 bits. */
  function BoxU32(x: int): (r: nat)
    ensures r % 2 == 1
    ensures r / 2 == Mask32(x)
    ensures r < 2 * TwoTo32
  {
    Mask32(x) * 2 + 1
  }

  /** `_lean_box_u64`: `(x >> 32) == 0` holds exactly for 0 <= x < 2^32 (Python's `>>` floors),
      and only those values are boxed; every other value raises NotImplementedError. */
  function BoxU64(x: int): (r: Result<nat>)
    ensures r.Success? <==> 0 <= x < TwoTo32
    ensures r.Success? ==> r.value == BoxU32(x) && r.value / 2 == x
    ensures r.Failure? ==> r.error == Box64Unsupported
  {
    if x / TwoTo32 == 0 then Success(BoxU32(x)) else Failure(Box64Unsupported)
  }

  /** `_unbox_u32` on the raw word of the result (NULL is 0): a tagged scalar gives
      `(w >> 1) & 0xFFFFFFFF`, anything else raises NotImplementedError. Boxing the decoded
      value again reproduces the low 33 bits of the word. */
  function UnboxU32(w: nat): (r: Result<nat>)
    ensures r.Success? <==> w % 2 == 1
    ensures r.Success? ==> r.value < TwoTo32 && BoxU32(r.value) == w % (2 * TwoTo32)
    ensures r.Failure? ==> r.error == BoxedU32Unsupported
  {
    if w % 2 == 1 then Success(Mask32(w / 2)) else Failure(BoxedU32Unsupported)
  }

  /** An array slot as `_read_lean_array_u32` decodes it: a tagged scalar is unboxed like a
      UInt32 result, any other slot becomes the placeholder 0. */
  function SlotValue(w: nat): (r: nat)
    ensures w % 2 == 1 ==> UnboxU32(w) == Success(r)
    ensures w % 2 == 0 ==> r == 0
  {
    if w % 2 == 1 then Mask32(w / 2) else 0
  }

  /** Unboxing a boxed UInt32 gives back the value modulo 2^32. */
  lemma UnboxBoxU32(x: int)
    ensures UnboxU32(BoxU32(x)) == Success(Mask32(x))
    ensures SlotValue(BoxU32(x)) == Mask32(x)
  {
  }
}
