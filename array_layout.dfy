/** The byte image of a Lean `lean_array_object` holding UInt32 values, as `_array_u32_to_lean`
    writes it (lean2py/lean2py/ffi.py:57-90), and the reading of such an object that
    `_read_lean_array_u32` performs (lean2py/lean2py/ffi.py:160-189). */
module ArrayLayout {
  import opened Failures
  import opened Bytes
  import opened RawMemory
  import opened Boxing

  const LeanArrayTag: nat := 246
  const LeanObjectHeaderSize: nat := 8
  const LeanArrayHeaderSize: nat := LeanObjectHeaderSize + 8 + 8

  /** `sys.maxsize` on a 64-bit host: no Python list is longer. */
  const PyMaxSize: nat := 0x7FFF_FFFF_FFFF_FFFF

  /** Bytes requested from `lean_alloc_object` for an array of `capacity` slots. */
  function ArrayObjectSize(capacity: nat): (r: nat)
    ensures r >= LeanArrayHeaderSize && r % 8 == 0
  {
    LeanArrayHeaderSize + 8 * capacity
  }

  /** The `lean_object` header: m_rc = 1 (4 bytes), then `LEAN_ARRAY_TAG << 24` as 4 bytes,
      which puts m_cs_sz = 0, m_other = 0 and m_tag = 246. */
  function ObjectHeader(): (r: seq<byte>)
    ensures r == [1, 0, 0, 0, 0, 0, 0, 246]
  {
    Pow256Values();
    assert ToLE(0, 1) == [0] && ToLE(0, 2) == [0, 0] && ToLE(0, 3) == [0, 0, 0];
    assert ToLE(1, 4) == [1, 0, 0, 0];
    assert ToLE(246, 1) == [246] && ToLE(0xF600, 2) == [0, 246] && ToLE(0xF6_0000, 3) == [0, 0, 246];
    assert ToLE(LeanArrayTag * 0x100_0000, 4) == [0, 0, 0, 246];
    ToLE(1, 4) + ToLE(LeanArrayTag * 0x100_0000, 4)
  }

  /** Header, m_size and m_capacity of an array object. */
  function HeaderImage(size: nat, capacity: nat): (r: seq<byte>)
    requires size <= PyMaxSize && capacity <= PyMaxSize
    ensures |r| == LeanArrayHeaderSize
  {
    Pow256Values();
    ObjectHeader() + ToLE(size, 8) + ToLE(capacity, 8)
  }

  /** The slots m_data[0 .. |xs|), each the tagged scalar of the element as 8 bytes. */
  function SlotsImage(xs: seq<int>): (r: seq<byte>)
    ensures |r| == 8 * |xs|
  {
    Pow256Values();
    if xs == [] then [] else SlotsImage(xs[..|xs| - 1]) + ToLE(BoxU32(xs[|xs| - 1]), 8)
  }

  /** The whole object for the list `xs`: size and capacity are both `|xs|`. */
  function ArrayImage(xs: seq<int>): (r: seq<byte>)
    requires |xs| <= PyMaxSize
    ensures |r| == ArrayObjectSize(|xs|)
  {
    HeaderImage(|xs|, |xs|) + SlotsImage(xs)
  }

  /** `[x & 0xFFFFFFFF for x in xs]`. */
  function Masked(xs: seq<int>): (r: seq<nat>)
    ensures |r| == |xs|
    ensures forall i | 0 <= i < |xs| :: r[i] == Mask32(xs[i])
  {
    if xs == [] then [] else [Mask32(xs[0])] + Masked(xs[1..])
  }

  /** Slot `i` of the image holds the tagged scalar of `xs[i]`. */
  lemma {:induction false} SlotsImageAt(xs: seq<int>, i: nat)
    requires i < |xs|
    ensures 8 * i + 8 <= |SlotsImage(xs)|
    ensures SlotsImage(xs)[8 * i .. 8 * i + 8] == ToLE(BoxU32(xs[i]), 8)
  {
    Pow256Values();
    var k := |xs| - 1;
    var front := SlotsImage(xs[..k]);
    var last := ToLE(BoxU32(xs[k]), 8);
    assert SlotsImage(xs) == front + last;
    if i < k {
      SlotsImageAt(xs[..k], i);
      assert xs[..k][i] == xs[i];
      SliceLeft(front, last, 8 * i, 8 * i + 8);
    } else {
      SliceRight(front, last, 8 * i, 8 * i + 8);
    }
  }

  /** A slice of `a + b` that lies within `a`. */
  lemma SliceLeft(a: seq<byte>, b: seq<byte>, lo: nat, hi: nat)
    requires lo <= hi <= |a|
    ensures (a + b)[lo..hi] == a[lo..hi]
  {
  }

  /** A slice of `a + b` that lies within `b`. */
  lemma SliceRight(a: seq<byte>, b: seq<byte>, lo: nat, hi: nat)
    requires |a| <= lo <= hi <= |a| + |b|
    ensures (a + b)[lo..hi] == b[lo - |a| .. hi - |a|]
  {
  }

  /** The first 24 bytes of an encoded array: the 8 header bytes, then m_size and m_capacity,
      both `|xs|`. */
  lemma ImageHeaderLayout(xs: seq<int>)
    requires |xs| <= PyMaxSize
    ensures ArrayImage(xs)[..8] == [1, 0, 0, 0, 0, 0, 0, 246]
    ensures FromLE(ArrayImage(xs)[8..16]) == |xs|
    ensures FromLE(ArrayImage(xs)[16..24]) == |xs|
  {
    Pow256Values();
    var o := ObjectHeader();
    var n := ToLE(|xs|, 8);
    var header := HeaderImage(|xs|, |xs|);
    var slots := SlotsImage(xs);
    assert ArrayImage(xs) == header + slots;
    assert header == (o + n) + n;
    SliceLeft(header, slots, 0, 8);
    SliceLeft(header, slots, 8, 16);
    SliceLeft(header, slots, 16, 24);
    SliceLeft(o + n, n, 0, 8);
    SliceLeft(o, n, 0, 8);
    SliceLeft(o + n, n, 8, 16);
    SliceRight(o, n, 8, 16);
    SliceRight(o + n, n, 16, 24);
    FromToLE(|xs|, 8);
  }

  /** Slot i of an encoded array, at offset 24 + 8i, holds the tagged scalar of `xs[i]`. */
  lemma ImageSlotAt(xs: seq<int>, i: nat)
    requires |xs| <= PyMaxSize && i < |xs|
    ensures 32 + 8 * i <= |ArrayImage(xs)|
    ensures ArrayImage(xs)[24 + 8 * i .. 32 + 8 * i] == ToLE(BoxU32(xs[i]), 8)
  {
    var header := HeaderImage(|xs|, |xs|);
    var slots := SlotsImage(xs);
    assert ArrayImage(xs) == header + slots;
    SlotsImageAt(xs, i);
    SliceRight(header, slots, 24 + 8 * i, 32 + 8 * i);
  }

  /** The layout of an encoded array: the 8 header bytes, m_size == m_capacity == |xs|,
      and slot i at offset 24 + 8i holding the tagged scalar of `xs[i]`. */
  lemma ArrayImageLayout(xs: seq<int>)
    requires |xs| <= PyMaxSize
    ensures ArrayImage(xs)[..8] == [1, 0, 0, 0, 0, 0, 0, 246]
    ensures FromLE(ArrayImage(xs)[8..16]) == |xs|
    ensures FromLE(ArrayImage(xs)[16..24]) == |xs|
    ensures forall i | 0 <= i < |xs| ::
              ArrayImage(xs)[24 + 8 * i .. 32 + 8 * i] == ToLE(BoxU32(xs[i]), 8)
  {
    ImageHeaderLayout(xs);
    forall i | 0 <= i < |xs|
      ensures ArrayImage(xs)[24 + 8 * i .. 32 + 8 * i] == ToLE(BoxU32(xs[i]), 8)
    {
      ImageSlotAt(xs, i);
    }
  }

  /** What `_read_lean_array_u32` returns for the object at `ptr` (0 is NULL): NULL gives [],
      a tag byte other than 246 raises ValueError, otherwise m_size slots are decoded. */
  function DecodeArray(m: Memory, ptr: nat): (r: Result<seq<nat>>)
    ensures ptr == 0 ==> r == Success([])
    ensures ptr != 0 && Peek(m, ptr + 7) != LeanArrayTag ==> r == Failure(NotAnArray(Peek(m, ptr + 7)))
    ensures ptr != 0 && Peek(m, ptr + 7) == LeanArrayTag ==>
              r.Success? && |r.value| == ReadWord(m, ptr + 8) &&
              forall i | 0 <= i < |r.value| ::
                r.value[i] == SlotValue(ReadWord(m, ptr + LeanArrayHeaderSize + 8 * i))
  {
    if ptr == 0 then Success([])
    else if Peek(m, ptr + 7) != LeanArrayTag then Failure(NotAnArray(Peek(m, ptr + 7)))
    else
      DecodeSlotsAt(m, ptr, ReadWord(m, ptr + 8));
      Success(DecodeSlots(m, ptr, ReadWord(m, ptr + 8)))
  }

  /** The word in slot j of the array at `ptr`, at offset 24 + 8j. */
  function SlotWords(m: Memory, ptr: nat): nat -> nat
  {
    j => ReadWord(m, ptr + LeanArrayHeaderSize + 8 * j)
  }

  /** The first `count` slots of the array at `ptr`, decoded. */
  function DecodeSlots(m: Memory, ptr: nat, count: nat): (r: seq<nat>)
    ensures |r| == count
  {
    Slots(SlotWords(m, ptr), count)
  }

  /** The values of the first `count` slot words given by `word`, decoded in index order. */
  function Slots(word: nat -> nat, count: nat): (r: seq<nat>)
    ensures |r| == count
  {
    if count == 0 then []
    else Slots(word, count - 1) + [SlotValue(word(count - 1))]
  }

  /** Element i of the decoded slots is `SlotValue` of slot word i. */
  lemma {:induction false} SlotsAt(word: nat -> nat, count: nat, i: nat)
    requires i < count
    ensures Slots(word, count)[i] == SlotValue(word(i))
  {
    if i < count - 1 {
      SlotsAt(word, count - 1, i);
    }
  }

  /** Every element of the decoded slots, as SlotsAt gives it. */
  lemma DecodeSlotsAt(m: Memory, ptr: nat, count: nat)
    ensures forall i | 0 <= i < count ::
              DecodeSlots(m, ptr, count)[i] == SlotValue(ReadWord(m, ptr + LeanArrayHeaderSize + 8 * i))
  {
    forall i | 0 <= i < count
      ensures DecodeSlots(m, ptr, count)[i] == SlotValue(ReadWord(m, ptr + LeanArrayHeaderSize + 8 * i))
    {
      SlotsAt(SlotWords(m, ptr), count, i);
    }
  }

  /** A freshly stored image carries the array tag. */
  lemma StoredTag(m: Memory, ptr: nat, xs: seq<int>)
    requires |xs| <= PyMaxSize
    ensures Peek(Store(m, ptr, ArrayImage(xs)), ptr + 7) == LeanArrayTag
  {
    ImageHeaderLayout(xs);
    assert ArrayImage(xs)[7] == ArrayImage(xs)[..8][7];
  }

  /** A freshly stored image begins with the eight header bytes. */
  lemma StoredHeaderBytes(m: Memory, ptr: nat, xs: seq<int>)
    requires |xs| <= PyMaxSize
    ensures forall k | 0 <= k < 8 :: Peek(Store(m, ptr, ArrayImage(xs)), ptr + k) == [1, 0, 0, 0, 0, 0, 0, 246][k]
  {
    ImageHeaderLayout(xs);
    var img := ArrayImage(xs);
    forall k | 0 <= k < 8 ensures Peek(Store(m, ptr, img), ptr + k) == [1, 0, 0, 0, 0, 0, 0, 246][k] {
      assert img[k] == img[..8][k];
    }
  }

  /** A freshly stored image reads back `|xs|` as its size. */
  lemma StoredSize(m: Memory, ptr: nat, xs: seq<int>)
    requires |xs| <= PyMaxSize
    ensures ReadWord(Store(m, ptr, ArrayImage(xs)), ptr + 8) == |xs|
  {
    ImageHeaderLayout(xs);
    ReadStoredWord(m, ptr, ArrayImage(xs), 8);
  }

  /** A freshly stored image reads back `|xs|` as its capacity. */
  lemma StoredCapacity(m: Memory, ptr: nat, xs: seq<int>)
    requires |xs| <= PyMaxSize
    ensures ReadWord(Store(m, ptr, ArrayImage(xs)), ptr + 16) == |xs|
  {
    ImageHeaderLayout(xs);
    ReadStoredWord(m, ptr, ArrayImage(xs), 16);
  }

  /** Slot `i` of a freshly stored image reads back as the tagged scalar of `xs[i]`. */
  lemma StoredSlot(m: Memory, ptr: nat, xs: seq<int>, i: nat)
    requires |xs| <= PyMaxSize && i < |xs|
    ensures ReadWord(Store(m, ptr, ArrayImage(xs)), ptr + LeanArrayHeaderSize + 8 * i) == BoxU32(xs[i])
  {
    var img := ArrayImage(xs);
    ImageSlotAt(xs, i);
    ReadStoredWord(m, ptr, img, 24 + 8 * i);
    Pow256Values();
    FromToLE(BoxU32(xs[i]), 8);
  }

  /** An array object whose tag, size and slots are those of `xs` decodes to `xs` masked. */
  lemma DecodeWellFormed(m: Memory, ptr: nat, xs: seq<int>)
    requires ptr != 0 && Peek(m, ptr + 7) == LeanArrayTag && ReadWord(m, ptr + 8) == |xs|
    requires forall i | 0 <= i < |xs| :: ReadWord(m, ptr + LeanArrayHeaderSize + 8 * i) == BoxU32(xs[i])
    ensures DecodeArray(m, ptr) == Success(Masked(xs))
  {
    var r := DecodeArray(m, ptr).value;
    forall i | 0 <= i < |xs| ensures r[i] == Masked(xs)[i] {
      UnboxBoxU32(xs[i]);
    }
    assert r == Masked(xs);
  }

  /** Round trip: decoding the image just stored at a non-NULL address gives back the list,
      each element reduced to 32 bits, in order. */
  lemma DecodeArrayImage(m: Memory, ptr: nat, xs: seq<int>)
    requires ptr != 0 && |xs| <= PyMaxSize
    ensures DecodeArray(Store(m, ptr, ArrayImage(xs)), ptr) == Success(Masked(xs))
  {
    StoredTag(m, ptr, xs);
    StoredSize(m, ptr, xs);
    forall i | 0 <= i < |xs|
      ensures ReadWord(Store(m, ptr, ArrayImage(xs)), ptr + LeanArrayHeaderSize + 8 * i) == BoxU32(xs[i])
    {
      StoredSlot(m, ptr, xs, i);
    }
    DecodeWellFormed(Store(m, ptr, ArrayImage(xs)), ptr, xs);
  }
}
