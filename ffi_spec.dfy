/** The effects of lean2py/lean2py/ffi.py on the process, as functions from the state before
    to the result and the state after. The methods of module Ffi are proved to implement them,
    and the lemmas below state what the source promises about them. */
module FfiSpec {
  import opened Failures
  import opened Bytes
  import opened RawMemory
  import opened Boxing
  import opened ArrayLayout
  import opened RuntimeLocator

  /** `lean_alloc_object`: (number of earlier requests, requested size) -> address, 0 for NULL. */
  type Allocator = (nat, nat) -> nat

  /** What an exported Lean function does with one word argument: a raw result word (NULL is 0,
      like ctypes' None) and the memory it leaves behind. */
  datatype CallOutcome = CallOutcome(raw: nat, mem: Memory)
  type ForeignFn = (nat, Memory) -> CallOutcome

  /** The target shared library: its exports by symbol name. */
  datatype Library = Library(exports: map<string, ForeignFn>)

  /** Process memory, the sizes passed to `lean_alloc_object` and the pointers passed to
      `lean_dec_ref_cold`, in call order. */
  datatype HeapState = HeapState(mem: Memory, allocs: seq<nat>, releases: seq<nat>)

  /** The two shapes `call_array_u32_flexible` returns: an int or a list of ints. */
  datatype Flex = Scalar(n: nat) | Array(elems: seq<nat>)

  /** The state of a call right after the foreign function returned. */
  datatype Invoked = Invoked(rt: RuntimeLib, arg: nat, raw: nat)

  /** The releases `getattr(rt, "lean_dec_ref_cold", None)` leads to: one call when the runtime
      exports the primitive, none (silently) when it does not. */
  function DecRefCall(rt: RuntimeLib, ptr: nat): (r: seq<nat>)
    ensures r == [] || r == [ptr]
    ensures r != [] <==> rt.hasDecRef
  {
    if rt.hasDecRef then [ptr] else []
  }

  function Released(st: HeapState, rs: seq<nat>): HeapState
  {
    st.(releases := st.releases + rs)
  }

  /** `_array_u32_to_lean`. */
  function Encode(st: HeapState, alloc: Allocator, rt: RuntimeLib, xs: seq<int>): (r: (Result<nat>, HeapState))
    requires |xs| <= PyMaxSize
    ensures r.0.Success? ==> r.0.value != 0 && r.1.allocs == st.allocs + [ArrayObjectSize(|xs|)]
    ensures r.0.Success? ==> r.1.mem == Store(st.mem, r.0.value, ArrayImage(xs))
    ensures r.1.releases == st.releases
  {
    if !rt.hasAlloc then (Failure(RuntimeSymbolMissing("lean_alloc_object")), st)
    else
      var size := ArrayObjectSize(|xs|);
      var ptr := alloc(|st.allocs|, size);
      var st1 := st.(allocs := st.allocs + [size]);
      if ptr == 0 then (Failure(AllocFailed), st1)
      else (Success(ptr), st1.(mem := Store(st.mem, ptr, ArrayImage(xs))))
  }

  /** The value `_unbox_u64` returns for the raw word `raw`. */
  function Unbox64Value(m: Memory, raw: nat): (v: nat)
    ensures raw % 2 == 1 ==> 2 * v + 1 == raw
    ensures raw % 2 == 0 ==> v < Pow256(8)
  {
    if raw % 2 == 1 then raw / 2 else ReadWord(m, raw + LeanObjectHeaderSize)
  }

  /** `_unbox_u64`. */
  function Unbox64(st: HeapState, rt: RuntimeLib, raw: nat): (r: (nat, HeapState))
    ensures r.1.mem == st.mem && r.1.allocs == st.allocs
    ensures raw % 2 == 1 ==> r.1 == st
  {
    (Unbox64Value(st.mem, raw), if raw % 2 == 1 then st else Released(st, DecRefCall(rt, raw)))
  }

  /** `_read_lean_array_u32`: the object is released whether or not its tag is the array tag. */
  function ReadArray(st: HeapState, rt: RuntimeLib, ptr: nat): (r: (Result<seq<nat>>, HeapState))
    ensures r.1.mem == st.mem && r.1.allocs == st.allocs
    ensures r.0.Success? ==> ptr != 0 ==> |r.0.value| == ReadWord(st.mem, ptr + 8)
  {
    (DecodeArray(st.mem, ptr), if ptr == 0 then st else Released(st, DecRefCall(rt, ptr)))
  }

  /** The decoding half of `call_array_u32_flexible`. */
  function Flexible(st: HeapState, rt: RuntimeLib, raw: nat): (r: (Result<Flex>, HeapState))
    ensures r.1.mem == st.mem && r.1.allocs == st.allocs
  {
    if raw % 2 == 1 then
      var (v, st1) := Unbox64(st, rt, raw);
      (Success(Scalar(v)), st1)
    else
      var (a, st1) := ReadArray(st, rt, raw);
      match a
      case Success(elems) => (Success(Array(elems)), st1)
      case Failure(e) =>
        if ExceptionClass(e) == ValueError then
          var (v, st2) := Unbox64(st1, rt, raw);
          (Success(Scalar(v)), st2)
        else (Failure(e), st1)
  }

  /** `if rt is None: rt = _get_runtime_lib(lean_bin_dir)`: the runtime a call shape uses. */
  function ResolveRuntime(rtOpt: Option<RuntimeLib>, env: LocatorEnv): (r: Option<RuntimeLib>)
    ensures rtOpt.Some? ==> r == rtOpt
    ensures r.None? <==> rtOpt.None? && Locate(env).None?
  {
    if rtOpt.Some? then rtOpt else Locate(env)
  }

  /** The steps the four call shapes share: resolve the runtime, encode the argument, look the
      symbol up, call it. */
  function Invoke(st: HeapState, alloc: Allocator, lib: Library, rtOpt: Option<RuntimeLib>,
                  symbol: string, xs: seq<int>, env: LocatorEnv): (r: (Result<Invoked>, HeapState))
    requires |xs| <= PyMaxSize
    ensures r.0.Success? ==> ResolveRuntime(rtOpt, env) == Some(r.0.value.rt) && symbol in lib.exports
    ensures r.0.Success? ==> r.0.value.arg != 0 && r.1.allocs == st.allocs + [ArrayObjectSize(|xs|)]
  {
    var rt := ResolveRuntime(rtOpt, env);
    if rt.None? then (Failure(RuntimeNotFound), st)
    else
      var (arr, st1) := Encode(st, alloc, rt.value, xs);
      if arr.Failure? then (Failure(arr.error), st1)
      else if symbol !in lib.exports then (Failure(ExportNotFound(symbol)), st1)
      else
        var out := lib.exports[symbol](arr.value, st1.mem);
        (Success(Invoked(rt.value, arr.value, out.raw)), st1.(mem := out.mem))
  }

  /** `call_array_u32_u32`, with the raw result word passed to `_unbox_u32`. */
  function CallU32(st: HeapState, alloc: Allocator, lib: Library, rtOpt: Option<RuntimeLib>,
                   symbol: string, xs: seq<int>, env: LocatorEnv): (r: (Result<nat>, HeapState))
    requires |xs| <= PyMaxSize
    ensures r.1 == Invoke(st, alloc, lib, rtOpt, symbol, xs, env).1
    ensures r.0.Success? ==> r.0.value < TwoTo32
  {
    var (inv, st1) := Invoke(st, alloc, lib, rtOpt, symbol, xs, env);
    if inv.Failure? then (Failure(inv.error), st1) else (UnboxU32(inv.value.raw), st1)
  }

  /** `call_array_u32_u64`. */
  function CallU64(st: HeapState, alloc: Allocator, lib: Library, rtOpt: Option<RuntimeLib>,
                   symbol: string, xs: seq<int>, env: LocatorEnv): (r: (Result<nat>, HeapState))
    requires |xs| <= PyMaxSize
    ensures r.0.Success? <==> Invoke(st, alloc, lib, rtOpt, symbol, xs, env).0.Success?
    ensures r.1.mem == Invoke(st, alloc, lib, rtOpt, symbol, xs, env).1.mem
  {
    var (inv, st1) := Invoke(st, alloc, lib, rtOpt, symbol, xs, env);
    if inv.Failure? then (Failure(inv.error), st1)
    else
      var (v, st2) := Unbox64(st1, inv.value.rt, inv.value.raw);
      (Success(v), st2)
  }

  /** `call_array_u32_array_u32`, with the raw result word passed to `_read_lean_array_u32`. */
  function CallArray(st: HeapState, alloc: Allocator, lib: Library, rtOpt: Option<RuntimeLib>,
                     symbol: string, xs: seq<int>, env: LocatorEnv): (r: (Result<seq<nat>>, HeapState))
    requires |xs| <= PyMaxSize
    ensures r.1.mem == Invoke(st, alloc, lib, rtOpt, symbol, xs, env).1.mem
    ensures r.0.Success? ==> forall i | 0 <= i < |r.0.value| :: r.0.value[i] < TwoTo32
  {
    var (inv, st1) := Invoke(st, alloc, lib, rtOpt, symbol, xs, env);
    if inv.Failure? then (Failure(inv.error), st1) else ReadArray(st1, inv.value.rt, inv.value.raw)
  }

  /** `call_array_u32_flexible`. */
  function CallFlexible(st: HeapState, alloc: Allocator, lib: Library, rtOpt: Option<RuntimeLib>,
                        symbol: string, xs: seq<int>, env: LocatorEnv): (r: (Result<Flex>, HeapState))
    requires |xs| <= PyMaxSize
    ensures r.0.Success? <==> Invoke(st, alloc, lib, rtOpt, symbol, xs, env).0.Success?
    ensures r.1.mem == Invoke(st, alloc, lib, rtOpt, symbol, xs, env).1.mem
  {
    var (inv, st1) := Invoke(st, alloc, lib, rtOpt, symbol, xs, env);
    if inv.Failure? then (Failure(inv.error), st1) else Flexible(st1, inv.value.rt, inv.value.raw)
  }

  // ---------------------------------------------------------------------------------------
  // Encoder

  /** The encoder's failures: no `lean_alloc_object` export raises before anything happens; a
      NULL allocation of 24 + 8n bytes raises RuntimeError before any byte is written. It never
      releases anything. */
  lemma EncodeFailures(st: HeapState, alloc: Allocator, rt: RuntimeLib, xs: seq<int>)
    requires |xs| <= PyMaxSize
    ensures Encode(st, alloc, rt, xs).1.releases == st.releases
    ensures !rt.hasAlloc ==> Encode(st, alloc, rt, xs) == (Failure(RuntimeSymbolMissing("lean_alloc_object")), st)
    ensures rt.hasAlloc ==> Encode(st, alloc, rt, xs).1.allocs == st.allocs + [24 + 8 * |xs|]
    ensures rt.hasAlloc && alloc(|st.allocs|, 24 + 8 * |xs|) == 0 ==>
              Encode(st, alloc, rt, xs).0 == Failure(AllocFailed) && Encode(st, alloc, rt, xs).1.mem == st.mem
    ensures Encode(st, alloc, rt, xs).0.Success? <==> rt.hasAlloc && alloc(|st.allocs|, 24 + 8 * |xs|) != 0
  {
  }

  /** What a successful encoding leaves in memory at the returned address p: the header bytes
      [1, 0, 0, 0, 0, 0, 0, 246], m_size == m_capacity == n, slot i at p + 24 + 8i holding
      `_lean_box_u32(xs[i])`, and every byte outside [p, p + 24 + 8n) unchanged. */
  lemma EncodeLayout(st: HeapState, alloc: Allocator, rt: RuntimeLib, xs: seq<int>, p: nat, st1: HeapState)
    requires |xs| <= PyMaxSize
    requires Encode(st, alloc, rt, xs) == (Success(p), st1)
    ensures p != 0
    ensures forall k | 0 <= k < 8 :: Peek(st1.mem, p + k) == [1, 0, 0, 0, 0, 0, 0, 246][k]
    ensures ReadWord(st1.mem, p + 8) == |xs| && ReadWord(st1.mem, p + 16) == |xs|
    ensures forall i | 0 <= i < |xs| :: ReadWord(st1.mem, p + 24 + 8 * i) == BoxU32(xs[i])
    ensures forall a: nat | a < p || p + 24 + 8 * |xs| <= a :: Peek(st1.mem, a) == Peek(st.mem, a)
  {
    assert st1.mem == Store(st.mem, p, ArrayImage(xs));
    StoredLayout(st.mem, p, xs);
  }

  /** The facts of EncodeLayout about the stored image itself. */
  lemma StoredLayout(m: Memory, p: nat, xs: seq<int>)
    requires |xs| <= PyMaxSize
    ensures var m' := Store(m, p, ArrayImage(xs));
            && (forall k | 0 <= k < 8 :: Peek(m', p + k) == [1, 0, 0, 0, 0, 0, 0, 246][k])
            && ReadWord(m', p + 8) == |xs|
            && ReadWord(m', p + 16) == |xs|
            && (forall i | 0 <= i < |xs| :: ReadWord(m', p + 24 + 8 * i) == BoxU32(xs[i]))
            && (forall a: nat | a < p || p + 24 + 8 * |xs| <= a :: Peek(m', a) == Peek(m, a))
  {
    StoredHeaderBytes(m, p, xs);
    StoredSize(m, p, xs);
    StoredCapacity(m, p, xs);
    forall i | 0 <= i < |xs| ensures ReadWord(Store(m, p, ArrayImage(xs)), p + 24 + 8 * i) == BoxU32(xs[i]) {
      StoredSlot(m, p, xs, i);
    }
  }

  // ---------------------------------------------------------------------------------------
  // Decoders

  /** `_unbox_u64` on any tagged scalar, a Nat or UInt64 up to 2^63 included, returns `w >> 1`
      without reading memory or releasing anything. */
  lemma Unbox64Odd(st: HeapState, rt: RuntimeLib, raw: nat)
    requires raw % 2 == 1
    ensures Unbox64(st, rt, raw) == (raw / 2, st)
  {
  }

  /** In particular `_unbox_u64` inverts `_lean_box_u64`. */
  lemma Unbox64Tagged(st: HeapState, rt: RuntimeLib, x: int)
    requires 0 <= x < TwoTo32
    ensures BoxU64(x).Success? && Unbox64(st, rt, BoxU64(x).value) == (x, st)
  {
    Unbox64Odd(st, rt, BoxU64(x).value);
  }

  /** `_unbox_u64` on a boxed UInt64 (an even pointer to a ctor whose 8-byte field follows the
      8-byte header) returns the field and releases the object once when the runtime exports
      `lean_dec_ref_cold`, and not at all otherwise. */
  lemma Unbox64Boxed(st: HeapState, rt: RuntimeLib, ptr: nat, header: seq<byte>, v: nat)
    requires ptr % 2 == 0 && |header| == LeanObjectHeaderSize && v < Pow256(8)
    ensures var st1 := st.(mem := Store(st.mem, ptr, header + ToLE(v, 8)));
            Unbox64(st1, rt, ptr) == (v, Released(st1, DecRefCall(rt, ptr)))
  {
    ReadStoredWord(st.mem, ptr, header + ToLE(v, 8), 8);
    assert (header + ToLE(v, 8))[8..16] == ToLE(v, 8);
    FromToLE(v, 8);
  }

  /** `_read_lean_array_u32` never touches memory and releases a non-NULL object exactly once
      (when the primitive exists), on the error path as on the success path; NULL is the empty
      list and no release. */
  lemma ReadArrayReleasesOnce(st: HeapState, rt: RuntimeLib, ptr: nat)
    ensures ReadArray(st, rt, ptr).1.mem == st.mem && ReadArray(st, rt, ptr).1.allocs == st.allocs
    ensures ptr == 0 ==> ReadArray(st, rt, ptr) == (Success([]), st)
    ensures ptr != 0 ==> ReadArray(st, rt, ptr).1.releases == st.releases + DecRefCall(rt, ptr)
    ensures ptr != 0 && rt.hasDecRef ==> |ReadArray(st, rt, ptr).1.releases| == |st.releases| + 1
    ensures ptr != 0 && Peek(st.mem, ptr + 7) != LeanArrayTag ==>
              ReadArray(st, rt, ptr).0 == Failure(NotAnArray(Peek(st.mem, ptr + 7)))
  {
  }

  /** Round trip: reading the object the encoder just wrote, with no foreign call in between,
      returns `[x & 0xFFFFFFFF for x in xs]` in order and releases the object once. */
  lemma EncodeThenReadArray(st: HeapState, alloc: Allocator, rt: RuntimeLib, xs: seq<int>, p: nat, st1: HeapState)
    requires |xs| <= PyMaxSize
    requires Encode(st, alloc, rt, xs) == (Success(p), st1)
    ensures ReadArray(st1, rt, p) == (Success(Masked(xs)), Released(st1, DecRefCall(rt, p)))
  {
    DecodeArrayImage(st.mem, p, xs);
  }

  // ---------------------------------------------------------------------------------------
  // Flexible dispatch

  /** A tagged raw result is decoded as `_unbox_u64` does, from the word alone: the outcome does
      not depend on memory, nothing is released and no array is read. */
  lemma FlexibleTagged(st: HeapState, rt: RuntimeLib, raw: nat)
    requires raw % 2 == 1
    ensures Flexible(st, rt, raw) == (Success(Scalar(raw / 2)), st)
  {
  }

  /** A NULL result or an even result whose tag is the array tag is decoded exactly as
      `_read_lean_array_u32` decodes it. */
  lemma FlexibleArray(st: HeapState, rt: RuntimeLib, raw: nat)
    requires raw % 2 == 0 && (raw == 0 || Peek(st.mem, raw + 7) == LeanArrayTag)
    ensures ReadArray(st, rt, raw).0.Success?
    ensures Flexible(st, rt, raw) == (Success(Array(ReadArray(st, rt, raw).0.value)), ReadArray(st, rt, raw).1)
  {
  }

  /** An even non-NULL result with another tag: the decoder releases it and raises ValueError,
      which is caught, and `_unbox_u64` then reads the word at offset 8 and releases it again,
      so the object is released twice when the runtime exports `lean_dec_ref_cold`. */
  lemma FlexibleDoubleRelease(st: HeapState, rt: RuntimeLib, raw: nat)
    requires raw % 2 == 0 && raw != 0 && Peek(st.mem, raw + 7) != LeanArrayTag
    ensures Flexible(st, rt, raw) ==
            (Success(Scalar(ReadWord(st.mem, raw + 8))), Released(st, DecRefCall(rt, raw) + DecRefCall(rt, raw)))
    ensures rt.hasDecRef ==> |Flexible(st, rt, raw).1.releases| == |st.releases| + 2
  {
    var d := DecRefCall(rt, raw);
    assert st.releases + d + d == st.releases + (d + d);
  }

  /** The only error the array decoder raises is ValueError, which the flexible path catches:
      decoding a flexible result never fails. */
  lemma FlexibleNeverFails(st: HeapState, rt: RuntimeLib, raw: nat)
    ensures Flexible(st, rt, raw).0.Success?
  {
    if raw % 2 == 1 {
      assert Flexible(st, rt, raw).1 == st;
    } else if raw == 0 {
      assert Flexible(st, rt, raw).1 == st;
    } else if Peek(st.mem, raw + 7) != LeanArrayTag {
      FlexibleDoubleRelease(st, rt, raw);
    } else {
      assert Flexible(st, rt, raw).1 == Released(st, DecRefCall(rt, raw));
    }
  }

  // ---------------------------------------------------------------------------------------
  // Call ordering

  /** With no runtime handle and none to be found, every call shape raises RuntimeError before
      any allocation, write, call or release. */
  lemma RuntimeMissingFailsFirst(st: HeapState, alloc: Allocator, lib: Library, symbol: string,
                                 xs: seq<int>, env: LocatorEnv)
    requires |xs| <= PyMaxSize && Locate(env).None?
    ensures CallU32(st, alloc, lib, None, symbol, xs, env) == (Failure(RuntimeNotFound), st)
    ensures CallU64(st, alloc, lib, None, symbol, xs, env) == (Failure(RuntimeNotFound), st)
    ensures CallArray(st, alloc, lib, None, symbol, xs, env) == (Failure(RuntimeNotFound), st)
    ensures CallFlexible(st, alloc, lib, None, symbol, xs, env) == (Failure(RuntimeNotFound), st)
  {
  }

  /** The argument is encoded before the symbol is looked up: a missing export raises
      AttributeError after an allocation and the writes of the array, which is never released. */
  lemma MissingExportLeaksArgument(st: HeapState, alloc: Allocator, lib: Library, rtOpt: Option<RuntimeLib>,
                                   symbol: string, xs: seq<int>, env: LocatorEnv)
    requires |xs| <= PyMaxSize && symbol !in lib.exports
    requires ResolveRuntime(rtOpt, env).Some? && ResolveRuntime(rtOpt, env).value.hasAlloc
    requires alloc(|st.allocs|, 24 + 8 * |xs|) != 0
    ensures var p := alloc(|st.allocs|, 24 + 8 * |xs|);
            Invoke(st, alloc, lib, rtOpt, symbol, xs, env) ==
            (Failure(ExportNotFound(symbol)),
             HeapState(Store(st.mem, p, ArrayImage(xs)), st.allocs + [24 + 8 * |xs|], st.releases))
  {
  }

  /** The caller never releases the array it passed (Lean consumed it): the shared steps
      release nothing. */
  lemma InvokeReleasesNothing(st: HeapState, alloc: Allocator, lib: Library, rtOpt: Option<RuntimeLib>,
                              symbol: string, xs: seq<int>, env: LocatorEnv)
    requires |xs| <= PyMaxSize
    ensures Invoke(st, alloc, lib, rtOpt, symbol, xs, env).1.releases == st.releases
  {
  }

  /** `result = func(arr_ptr)`: a successful call handed the export the address the allocator
      returned, over memory holding the encoded array there, and the raw result word and the
      new memory are the export's answer. */
  lemma InvokePassesArray(st: HeapState, alloc: Allocator, lib: Library, rtOpt: Option<RuntimeLib>,
                          symbol: string, xs: seq<int>, env: LocatorEnv)
    requires |xs| <= PyMaxSize
    ensures var (r, st1) := Invoke(st, alloc, lib, rtOpt, symbol, xs, env);
            r.Success? ==>
              && r.value.arg == alloc(|st.allocs|, ArrayObjectSize(|xs|))
              && lib.exports[symbol](r.value.arg, Store(st.mem, r.value.arg, ArrayImage(xs)))
                 == CallOutcome(r.value.raw, st1.mem)
  {
  }

  /** After the call, each decoder releases only the raw result: `_unbox_u32` nothing,
      `_unbox_u64` and `_read_lean_array_u32` at most once, the flexible path at most twice. */
  lemma DecodersReleaseOnlyResult(st: HeapState, rt: RuntimeLib, raw: nat)
    ensures OnlyReleases(st, Unbox64(st, rt, raw).1, raw, 1)
    ensures OnlyReleases(st, ReadArray(st, rt, raw).1, raw, 1)
    ensures OnlyReleases(st, Flexible(st, rt, raw).1, raw, 2)
  {
    if raw % 2 == 1 {
      assert Flexible(st, rt, raw).1 == st;
    } else if raw == 0 {
      assert Flexible(st, rt, raw).1 == st;
    } else if Peek(st.mem, raw + 7) != LeanArrayTag {
      FlexibleDoubleRelease(st, rt, raw);
    } else {
      assert Flexible(st, rt, raw).1 == Released(st, DecRefCall(rt, raw));
    }
  }

  /** `after` differs from `before` only by at most `bound` further releases, all of `ptr`. */
  ghost predicate OnlyReleases(before: HeapState, after: HeapState, ptr: nat, bound: nat)
  {
    && after.mem == before.mem && after.allocs == before.allocs
    && |before.releases| <= |after.releases| <= |before.releases| + bound
    && after.releases[..|before.releases|] == before.releases
    && forall k | |before.releases| <= k < |after.releases| :: after.releases[k] == ptr
  }
}
