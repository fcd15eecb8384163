/** `_unbox_u32` and `_read_lean_array_u32` as lean2py/lean2py/ffi.py writes them, applied to the
    Python value ctypes hands back for a `c_void_p` restype. ctypes turns such a result into
    `None` for NULL and a plain `int` otherwise, never a `c_void_p` object, so the `.value`
    lookup in both functions raises AttributeError on every non-NULL result. The corrected
    decoders, which start from the raw word, are `Boxing.UnboxU32` and `FfiSpec.ReadArray`. */
module AsWritten {
  import opened Failures
  import opened Boxing
  import opened ArrayLayout
  import opened RuntimeLocator
  import opened FfiSpec

  /** The Python values a result pointer can be. */
  datatype PyValue = PyNone | PyInt(n: nat) | VoidP(addr: nat)

  /** What a foreign call with `restype = c_void_p` returns to Python for the raw word `raw`. */
  function CtypesResult(raw: nat): (v: PyValue)
    ensures v.PyNone? <==> raw == 0
    ensures v != PyNone ==> v == PyInt(raw)
  {
    if raw == 0 then PyNone else PyInt(raw)
  }

  /** Python truthiness of the value. */
  predicate Truthy(v: PyValue)
  {
    match v
    case PyNone => false
    case PyInt(n) => n != 0
    case VoidP(a) => a != 0
  }

  /** `v.value`: only a `c_void_p` object has the attribute. */
  function ValueAttribute(v: PyValue): (r: Result<nat>)
    ensures r.Success? <==> v.VoidP?
    ensures r.Success? ==> r.value == v.addr
    ensures r.Failure? ==> r.error == NoValueAttribute
  {
    if v.VoidP? then Success(v.addr) else Failure(NoValueAttribute)
  }

  /** `_unbox_u32` as written: `result_ptr.value if result_ptr else 0`, then the low-bit test. */
  function UnboxU32AsWritten(v: PyValue): (r: Result<nat>)
    ensures v.VoidP? ==> r == UnboxU32(v.addr)
    ensures !Truthy(v) ==> r == UnboxU32(0)
  {
    var val := if Truthy(v) then ValueAttribute(v) else Success(0);
    if val.Failure? then Failure(val.error) else UnboxU32(val.value)
  }

  /** `_read_lean_array_u32` as written: an untruthy pointer is the empty list, otherwise
      `ptr.value` is taken before the header is read. */
  function ReadArrayAsWritten(st: HeapState, rt: RuntimeLib, v: PyValue): (r: (Result<seq<nat>>, HeapState))
    ensures v.VoidP? ==> r == ReadArray(st, rt, v.addr)
    ensures !Truthy(v) ==> r == (Success([]), st)
  {
    if !Truthy(v) then (Success([]), st)
    else
      var addr := ValueAttribute(v);
      if addr.Failure? then (Failure(addr.error), st) else ReadArray(st, rt, addr.value)
  }

  /** `call_array_u32_u32` as written. */
  function CallU32AsWritten(st: HeapState, alloc: Allocator, lib: Library, rtOpt: Option<RuntimeLib>,
                            symbol: string, xs: seq<int>, env: LocatorEnv): (r: (Result<nat>, HeapState))
    requires |xs| <= PyMaxSize
    ensures r.1 == Invoke(st, alloc, lib, rtOpt, symbol, xs, env).1
    ensures Invoke(st, alloc, lib, rtOpt, symbol, xs, env).0.Failure? ==> r == CallU32(st, alloc, lib, rtOpt, symbol, xs, env)
  {
    var (inv, st1) := Invoke(st, alloc, lib, rtOpt, symbol, xs, env);
    if inv.Failure? then (Failure(inv.error), st1)
    else (UnboxU32AsWritten(CtypesResult(inv.value.raw)), st1)
  }

  /** `call_array_u32_array_u32` as written. */
  function CallArrayAsWritten(st: HeapState, alloc: Allocator, lib: Library, rtOpt: Option<RuntimeLib>,
                              symbol: string, xs: seq<int>, env: LocatorEnv): (r: (Result<seq<nat>>, HeapState))
    requires |xs| <= PyMaxSize
    ensures r.1.mem == Invoke(st, alloc, lib, rtOpt, symbol, xs, env).1.mem
    ensures Invoke(st, alloc, lib, rtOpt, symbol, xs, env).0.Failure? ==> r == CallArray(st, alloc, lib, rtOpt, symbol, xs, env)
  {
    var (inv, st1) := Invoke(st, alloc, lib, rtOpt, symbol, xs, env);
    if inv.Failure? then (Failure(inv.error), st1)
    else ReadArrayAsWritten(st1, inv.value.rt, CtypesResult(inv.value.raw))
  }

  /** As written, `_unbox_u32` raises AttributeError for every non-NULL result, and agrees with
      the corrected decoder only on NULL. */
  lemma UnboxU32AsWrittenFails(raw: nat)
    ensures raw != 0 ==> UnboxU32AsWritten(CtypesResult(raw)) == Failure(NoValueAttribute)
    ensures UnboxU32AsWritten(CtypesResult(raw)) == UnboxU32(raw) <==> raw == 0
  {
    if raw != 0 {
      assert UnboxU32AsWritten(CtypesResult(raw)) == Failure(NoValueAttribute);
      assert UnboxU32(raw) != Failure(NoValueAttribute);
    }
  }

  /** The result word 7, the tagged scalar for 3: as written the call raises AttributeError, the
      corrected decoder returns 3. */
  lemma UnboxU32Counterexample()
    ensures ExceptionClass(UnboxU32AsWritten(CtypesResult(7)).error) == AttributeError
    ensures UnboxU32(7) == Success(3)
  {
    UnboxU32AsWrittenFails(7);
  }

  /** As written, `_read_lean_array_u32` raises AttributeError for every non-NULL result, before
      reading the header and without releasing the object. */
  lemma ReadArrayAsWrittenFails(st: HeapState, rt: RuntimeLib, raw: nat)
    requires raw != 0
    ensures ReadArrayAsWritten(st, rt, CtypesResult(raw)) == (Failure(NoValueAttribute), st)
  {
  }

  /** A well-formed array object at a non-NULL address: as written the list is lost and the
      object leaked, the corrected decoder returns the elements and releases it. */
  lemma ReadArrayCounterexample(st: HeapState, alloc: Allocator, rt: RuntimeLib, xs: seq<int>,
                                p: nat, st1: HeapState)
    requires |xs| <= PyMaxSize
    requires Encode(st, alloc, rt, xs) == (Success(p), st1)
    ensures ReadArrayAsWritten(st1, rt, CtypesResult(p)) == (Failure(NoValueAttribute), st1)
    ensures ReadArray(st1, rt, p) == (Success(Masked(xs)), Released(st1, DecRefCall(rt, p)))
  {
    EncodeLayout(st, alloc, rt, xs, p, st1);
    ReadArrayAsWrittenFails(st1, rt, p);
    EncodeThenReadArray(st, alloc, rt, xs, p, st1);
  }

  /** Whole calls: whenever the export returns a non-NULL word, the as-written
      `call_array_u32_u32` and `call_array_u32_array_u32` raise AttributeError, in the state the
      foreign call left, while the corrected ones decode that word with `_unbox_u32` and
      `_read_lean_array_u32`. */
  lemma CallsAsWrittenFail(st: HeapState, alloc: Allocator, lib: Library, rtOpt: Option<RuntimeLib>,
                           symbol: string, xs: seq<int>, env: LocatorEnv)
    requires |xs| <= PyMaxSize
    requires Invoke(st, alloc, lib, rtOpt, symbol, xs, env).0.Success?
    requires Invoke(st, alloc, lib, rtOpt, symbol, xs, env).0.value.raw != 0
    ensures CallU32AsWritten(st, alloc, lib, rtOpt, symbol, xs, env)
            == (Failure(NoValueAttribute), Invoke(st, alloc, lib, rtOpt, symbol, xs, env).1)
    ensures CallArrayAsWritten(st, alloc, lib, rtOpt, symbol, xs, env)
            == (Failure(NoValueAttribute), Invoke(st, alloc, lib, rtOpt, symbol, xs, env).1)
    ensures CallU32(st, alloc, lib, rtOpt, symbol, xs, env).0
            == UnboxU32(Invoke(st, alloc, lib, rtOpt, symbol, xs, env).0.value.raw)
    ensures CallArray(st, alloc, lib, rtOpt, symbol, xs, env)
            == ReadArray(Invoke(st, alloc, lib, rtOpt, symbol, xs, env).1,
                         Invoke(st, alloc, lib, rtOpt, symbol, xs, env).0.value.rt,
                         Invoke(st, alloc, lib, rtOpt, symbol, xs, env).0.value.raw)
  {
    var (inv, st1) := Invoke(st, alloc, lib, rtOpt, symbol, xs, env);
    UnboxU32AsWrittenFails(inv.value.raw);
    ReadArrayAsWrittenFails(st1, inv.value.rt, inv.value.raw);
  }
}
