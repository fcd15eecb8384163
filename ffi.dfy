/** lean2py/lean2py/ffi.py as step-by-step code over a modelled process: the Lean runtime's
    allocator and release primitive act on class Heap, the encoder writes the object in place,
    the decoder loops over the slots. Each method is proved to have the effect FfiSpec gives. */
module Ffi {
  import opened Failures
  import opened Bytes
  import opened RawMemory
  import opened Boxing
  import opened ArrayLayout
  import opened RuntimeLocator
  import opened FfiSpec

  /** Process memory together with the runtime's allocator and the record of the calls made
      to `lean_alloc_object` and `lean_dec_ref_cold`. */
  class Heap {
    var mem: Memory
    var allocs: seq<nat>
    var releases: seq<nat>
    const allocator: Allocator

    constructor (mem0: Memory, alloc: Allocator)
      ensures State() == HeapState(mem0, [], []) && allocator == alloc
    {
      mem, allocs, releases := mem0, [], [];
      allocator := alloc;
    }

    function State(): HeapState
      reads this
    {
      HeapState(mem, allocs, releases)
    }

    /** `lean_alloc_object(size)`: the answer of the allocator to this request, NULL being 0. */
    method AllocObject(size: nat) returns (ptr: nat)
      modifies this`allocs
      ensures ptr == allocator(|old(allocs)|, size)
      ensures allocs == old(allocs) + [size]
    {
      ptr := allocator(|allocs|, size);
      allocs := allocs + [size];
    }

    /** `lean_dec_ref_cold(ptr)`. */
    method DecRefCold(ptr: nat)
      modifies this`releases
      ensures releases == old(releases) + [ptr]
    {
      releases := releases + [ptr];
    }

    /** A slice assignment into a ctypes byte buffer at `addr`. */
    method Write(addr: nat, bs: seq<byte>)
      modifies this`mem
      ensures mem == Store(old(mem), addr, bs)
    {
      mem := Store(mem, addr, bs);
    }

    /** Calling a foreign function with one word argument and one word result. */
    method CallForeign(f: ForeignFn, arg: nat) returns (raw: nat)
      modifies this`mem
      ensures CallOutcome(raw, mem) == f(arg, old(mem))
    {
      var out := f(arg, mem);
      mem := out.mem;
      raw := out.raw;
    }
  }

  /** `dec = getattr(rt, "lean_dec_ref_cold", None)`, then `dec(ptr)` if it exists. */
  method ReleaseIfAvailable(h: Heap, rt: RuntimeLib, ptr: nat)
    modifies h`releases
    ensures h.releases == old(h.releases) + DecRefCall(rt, ptr)
  {
    if rt.hasDecRef {
      h.DecRefCold(ptr);
    }
  }

  /** The four header writes of `_array_u32_to_lean` lay down the 24-byte header image. */
  lemma HeaderWrites(m0: Memory, ptr: nat, n: nat)
    requires n <= PyMaxSize
    ensures Store(Store(Store(Store(m0, ptr, ToLE(1, 4)), ptr + 4, ToLE(LeanArrayTag * 0x100_0000, 4)),
                        ptr + 8, ToLE(n, 8)), ptr + 16, ToLE(n, 8))
            == Store(m0, ptr, HeaderImage(n, n))
  {
    var a, b, c := ToLE(1, 4), ToLE(LeanArrayTag * 0x100_0000, 4), ToLE(n, 8);
    StoreConcat(m0, ptr, a, b, a + b, ptr + 4);
    StoreConcat(m0, ptr, a + b, c, a + b + c, ptr + 8);
    StoreConcat(m0, ptr, a + b + c, c, a + b + c + c, ptr + 16);
  }

  /** One more element adds its tagged scalar, computed from the masked element, at the end of
      the object image. */
  lemma ImageStep(xs: seq<int>, i: nat)
    requires i < |xs| <= PyMaxSize
    ensures |HeaderImage(|xs|, |xs|) + SlotsImage(xs[..i])| == LeanArrayHeaderSize + i * 8
    ensures HeaderImage(|xs|, |xs|) + SlotsImage(xs[..i]) + ToLE(BoxU32(Mask32(xs[i])), 8)
            == HeaderImage(|xs|, |xs|) + SlotsImage(xs[..i + 1])
  {
    assert |xs[..i]| == i;
    assert xs[..i + 1][..i] == xs[..i];
    assert BoxU32(Mask32(xs[i])) == BoxU32(xs[i]);
    assert SlotsImage(xs[..i + 1]) == SlotsImage(xs[..i]) + ToLE(BoxU32(Mask32(xs[i])), 8);
  }

  /** The header writes of `_array_u32_to_lean`: m_rc and the tag word, then m_size and
      m_capacity. */
  method WriteHeader(h: Heap, ptr: nat, n: nat, capacity: nat)
    requires n <= PyMaxSize && capacity == n
    modifies h`mem
    ensures h.mem == Store(old(h.mem), ptr, HeaderImage(n, n))
  {
    ghost var m0 := h.mem;
    h.Write(ptr, ToLE(1, 4));
    h.Write(ptr + 4, ToLE(LeanArrayTag * 0x100_0000, 4));
    h.Write(ptr + 8, ToLE(n, 8));
    h.Write(ptr + 16, ToLE(capacity, 8));
    HeaderWrites(m0, ptr, n);
  }

  /** The loop of `_array_u32_to_lean` that fills m_data, one 8-byte slot per element, after
      the header is in place. */
  method WriteSlots(h: Heap, ptr: nat, xs: seq<int>, ghost m0: Memory)
    requires |xs| <= PyMaxSize
    requires h.mem == Store(m0, ptr, HeaderImage(|xs|, |xs|))
    modifies h`mem
    ensures h.mem == Store(m0, ptr, ArrayImage(xs))
  {
    ghost var img := HeaderImage(|xs|, |xs|);
    assert img == HeaderImage(|xs|, |xs|) + SlotsImage(xs[..0]) by {
      assert xs[..0] == [];
    }
    for i := 0 to |xs|
      invariant h.mem == Store(m0, ptr, img)
      invariant img == HeaderImage(|xs|, |xs|) + SlotsImage(xs[..i])
    {
      var val := BoxU32(Mask32(xs[i]));
      var offset := LeanArrayHeaderSize + i * 8;
      ImageStep(xs, i);
      StoreConcat(m0, ptr, img, ToLE(val, 8), img + ToLE(val, 8), ptr + offset);
      h.Write(ptr + offset, ToLE(val, 8));
      img := img + ToLE(val, 8);
    }
    assert xs[..|xs|] == xs;
  }

  /** `_array_u32_to_lean`: allocate 24 + 8n bytes, write header, m_size and m_capacity, then
      one tagged slot per element. */
  method ArrayU32ToLean(h: Heap, rt: RuntimeLib, xs: seq<int>) returns (r: Result<nat>)
    requires |xs| <= PyMaxSize
    modifies h
    ensures (r, h.State()) == Encode(old(h.State()), h.allocator, rt, xs)
  {
    var n := |xs|;
    var capacity := if n == 0 then 0 else n;
    var size := LeanArrayHeaderSize + 8 * capacity;
    if !rt.hasAlloc {
      return Failure(RuntimeSymbolMissing("lean_alloc_object"));
    }
    var ptr := h.AllocObject(size);
    if ptr == 0 {
      return Failure(AllocFailed);
    }
    ghost var m0 := h.mem;
    WriteHeader(h, ptr, n, capacity);
    WriteSlots(h, ptr, xs, m0);
    return Success(ptr);
  }

  /** `_array_f64_to_lean`: Float arrays are not supported, whatever the input. */
  function ArrayF64ToLean(rt: RuntimeLib, xs: seq<real>): (r: Result<nat>)
    ensures r.Failure? && ExceptionClass(r.error) == NotImplementedError
  {
    Failure(FloatArrayUnsupported)
  }

  /** `_unbox_u64`: a tagged scalar is `raw >> 1`; otherwise the 8-byte field after the header
      is read and the object released if the primitive exists. */
  method UnboxU64(h: Heap, rt: RuntimeLib, raw: nat) returns (v: nat)
    modifies h`releases
    ensures (v, h.State()) == Unbox64(old(h.State()), rt, raw)
  {
    if raw % 2 == 1 {
      return raw / 2;
    }
    var addr := raw + 8;
    v := ReadWord(h.mem, addr);
    ReleaseIfAvailable(h, rt, raw);
  }

  /** `_read_lean_array_u32`. */
  method ReadLeanArrayU32(h: Heap, rt: RuntimeLib, ptr: nat) returns (r: Result<seq<nat>>)
    modifies h`releases
    ensures (r, h.State()) == ReadArray(old(h.State()), rt, ptr)
  {
    if ptr == 0 {
      return Success([]);
    }
    var addr := ptr;
    var tag := Peek(h.mem, addr + 7);
    if tag != LeanArrayTag {
      ReleaseIfAvailable(h, rt, ptr);
      return Failure(NotAnArray(tag));
    }
    var mSize := ReadWord(h.mem, addr + 8);
    var out: seq<nat> := [];
    for i := 0 to mSize
      invariant out == DecodeSlots(h.mem, addr, i)
    {
      var slotAddr := addr + LeanArrayHeaderSize + i * 8;
      var val := ReadWord(h.mem, slotAddr);
      if val % 2 == 1 {
        out := out + [Mask32(val / 2)];
      } else {
        out := out + [0];
      }
    }
    ReleaseIfAvailable(h, rt, ptr);
    return Success(out);
  }

  /** The steps every `call_array_u32_*` function takes before decoding: use the given runtime
      or locate one, encode the list, resolve the export, call it. */
  method Invoke(h: Heap, lib: Library, rtOpt: Option<RuntimeLib>, symbol: string, xs: seq<int>,
                env: LocatorEnv) returns (r: Result<Invoked>)
    requires |xs| <= PyMaxSize
    modifies h
    ensures (r, h.State()) == FfiSpec.Invoke(old(h.State()), h.allocator, lib, rtOpt, symbol, xs, env)
  {
    var rt := rtOpt;
    if rt.None? {
      rt := GetRuntimeLib(env);
    }
    if rt.None? {
      return Failure(RuntimeNotFound);
    }
    var arr := ArrayU32ToLean(h, rt.value, xs);
    if arr.Failure? {
      return Failure(arr.error);
    }
    if symbol !in lib.exports {
      return Failure(ExportNotFound(symbol));
    }
    var raw := h.CallForeign(lib.exports[symbol], arr.value);
    return Success(Invoked(rt.value, arr.value, raw));
  }

  /** `call_array_u32_u32`. */
  method CallArrayU32U32(h: Heap, lib: Library, rtOpt: Option<RuntimeLib>, symbol: string,
                         xs: seq<int>, env: LocatorEnv) returns (r: Result<nat>)
    requires |xs| <= PyMaxSize
    modifies h
    ensures (r, h.State()) == CallU32(old(h.State()), h.allocator, lib, rtOpt, symbol, xs, env)
  {
    var inv := Invoke(h, lib, rtOpt, symbol, xs, env);
    if inv.Failure? {
      return Failure(inv.error);
    }
    r := UnboxU32(inv.value.raw);
  }

  /** `call_array_u32_u64`. */
  method CallArrayU32U64(h: Heap, lib: Library, rtOpt: Option<RuntimeLib>, symbol: string,
                         xs: seq<int>, env: LocatorEnv) returns (r: Result<nat>)
    requires |xs| <= PyMaxSize
    modifies h
    ensures (r, h.State()) == CallU64(old(h.State()), h.allocator, lib, rtOpt, symbol, xs, env)
  {
    var inv := Invoke(h, lib, rtOpt, symbol, xs, env);
    if inv.Failure? {
      return Failure(inv.error);
    }
    var v := UnboxU64(h, inv.value.rt, inv.value.raw);
    return Success(v);
  }

  /** `call_array_u32_array_u32`. */
  method CallArrayU32ArrayU32(h: Heap, lib: Library, rtOpt: Option<RuntimeLib>, symbol: string,
                              xs: seq<int>, env: LocatorEnv) returns (r: Result<seq<nat>>)
    requires |xs| <= PyMaxSize
    modifies h
    ensures (r, h.State()) == CallArray(old(h.State()), h.allocator, lib, rtOpt, symbol, xs, env)
  {
    var inv := Invoke(h, lib, rtOpt, symbol, xs, env);
    if inv.Failure? {
      return Failure(inv.error);
    }
    r := ReadLeanArrayU32(h, inv.value.rt, inv.value.raw);
  }

  /** `call_array_u32_flexible`: the low bit of the raw result picks scalar or array decoding,
      and a ValueError from the array decoder falls back to `_unbox_u64`. */
  method CallArrayU32Flexible(h: Heap, lib: Library, rtOpt: Option<RuntimeLib>, symbol: string,
                              xs: seq<int>, env: LocatorEnv) returns (r: Result<Flex>)
    requires |xs| <= PyMaxSize
    modifies h
    ensures (r, h.State()) == CallFlexible(old(h.State()), h.allocator, lib, rtOpt, symbol, xs, env)
  {
    var inv := Invoke(h, lib, rtOpt, symbol, xs, env);
    if inv.Failure? {
      return Failure(inv.error);
    }
    var rt, raw := inv.value.rt, inv.value.raw;
    if raw % 2 == 1 {
      var v := UnboxU64(h, rt, raw);
      return Success(Scalar(v));
    }
    var a := ReadLeanArrayU32(h, rt, raw);
    if a.Success? {
      return Success(Array(a.value));
    }
    if ExceptionClass(a.error) == ValueError {
      var v := UnboxU64(h, rt, raw);
      return Success(Scalar(v));
    }
    return Failure(a.error);
  }

  /** Encoding a list and reading the object back with no foreign call in between returns the
      list reduced to 32 bits and releases the object once. */
  method EncodeThenRead(h: Heap, rt: RuntimeLib, xs: seq<int>) returns (r: Result<seq<nat>>)
    requires |xs| <= PyMaxSize
    modifies h
    ensures r.Success? <==> rt.hasAlloc && h.allocator(|old(h.allocs)|, ArrayObjectSize(|xs|)) != 0
    ensures r.Success? ==> r.value == Masked(xs)
    ensures r.Success? ==> h.releases == old(h.releases) + DecRefCall(rt, h.allocator(|old(h.allocs)|, ArrayObjectSize(|xs|)))
    ensures h.allocs == old(h.allocs) + (if rt.hasAlloc then [ArrayObjectSize(|xs|)] else [])
    ensures r.Success? ==> h.mem == Store(old(h.mem), h.allocator(|old(h.allocs)|, ArrayObjectSize(|xs|)), ArrayImage(xs))
    ensures r.Failure? ==> h.mem == old(h.mem) && h.releases == old(h.releases)
    ensures !rt.hasAlloc ==> r == Failure(RuntimeSymbolMissing("lean_alloc_object"))
    ensures rt.hasAlloc && h.allocator(|old(h.allocs)|, ArrayObjectSize(|xs|)) == 0 ==> r == Failure(AllocFailed)
  {
    ghost var st0 := h.State();
    var p := ArrayU32ToLean(h, rt, xs);
    if p.Failure? {
      return Failure(p.error);
    }
    ghost var st1 := h.State();
    EncodeThenReadArray(st0, h.allocator, rt, xs, p.value, st1);
    r := ReadLeanArrayU32(h, rt, p.value);
  }
}
