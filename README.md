# lean2py marshalling layer and export scanner, in Dafny

This project models two pieces of the lean2py tool chain and proves properties of them.

The first is the marshalling layer of `lean2py/lean2py/ffi.py`, which lets Python call functions a
Lean 4 program exports through its C ABI:

- the tagged-scalar encoding of `UInt32`/`UInt64` values (`_lean_box_u32`, `_lean_box_u64`,
  `_unbox_u32`, `_unbox_u64`);
- the choice of the Lean runtime library among the platform's candidate file names
  (`_get_runtime_lib`);
- the encoder that builds a `lean_array_object` for `Array UInt32` in memory obtained from
  `lean_alloc_object` (`_array_u32_to_lean`), and the always-failing `_array_f64_to_lean`;
- the decoder that reads such an array back and releases it through `lean_dec_ref_cold`
  (`_read_lean_array_u32`);
- the four call shapes `call_array_u32_u32`, `call_array_u32_u64`, `call_array_u32_array_u32`
  and `call_array_u32_flexible`, which locate the runtime, encode the argument, resolve the
  export, call it and decode the result.

The second is `parse_exports` in `bigo_gen/lean2py/parser.py`, which finds
`@[export sym] ... def name` declarations in Lean source with one regular expression and
`finditer`.

## How the model is built

- **Process state.** Process memory is a `map<nat, byte>`; a byte never written reads as 0.
- **Runtime primitives.** The runtime's allocator is a function from (request number, size) to
  an address, with 0 for NULL. Every call to `lean_alloc_object` and every call to
  `lean_dec_ref_cold` is recorded in order, so release counts can be stated.
- **Libraries.** A foreign export is a function from (argument word, memory) to (result word,
  memory). A library is a map from symbol names to exports.
- **Pure specification (`FfiSpec`).** Each operation of `ffi.py` is written as a function from
  the state before to the result and the state after. The lemmas of `FfiSpec` state what the
  source promises about these functions.
- **Imperative code (`Ffi`).** The same operations are written as methods over class `Heap`,
  in the order the source performs them: header writes, the slot loop, the decode loop, the
  releases. Each method is proved to have exactly the effect its `FfiSpec` function gives.
- **Exceptions.** Python exceptions are `Failure(e)` values of a `Result` type.
  `Failures.ExceptionClass` gives the Python class of each error, which decides what an
  `except` clause catches.
- **Integers.** Python integers are unbounded, like Dafny's. `& 0xFFFFFFFF`, `<< 1`, `>> 1` and
  `| 1` are written as arithmetic; Dafny's Euclidean `%` agrees with Python's `&` mask for
  negative numbers too.
- **The regular expression.** It is stated twice: as a language (`ExportParser.IsParse`, one
  predicate per piece of the pattern) and as a deterministic scanner (`ExportParser.MatchAt`).
  The two are proved to agree exactly. `finditer` is a scan over an arbitrary matcher
  (`ExportParser.FindIter`), proved to report matches in order, without overlap and
  leftmost-first. `ExportParser.ParseExports` is the loop of `parse_exports`.
- **Code as written, and where the model departs from it.**
  - `_array_f64_to_lean` raises NotImplementedError for every input, the empty list included
    (`Ffi.ArrayF64ToLean`).
  - A missing export raises AttributeError only after the argument array was allocated and
    written (lean2py/lean2py/ffi.py:149-152), and that array is never released
    (`FfiSpec.MissingExportLeaksArgument`).
  - The flexible call shape releases a non-array heap result twice
    (`FfiSpec.FlexibleDoubleRelease`). The model states this count and does not change it.
  - `call_array_u32_u32` and `call_array_u32_array_u32` are modelled in their corrected form:
    `FfiSpec.CallU32`, `FfiSpec.CallArray`, `Ffi.CallArrayU32U32` and
    `Ffi.CallArrayU32ArrayU32` decode the raw result word. As written, `_unbox_u32` and
    `_read_lean_array_u32` take `.value` of the plain int ctypes returns, and raise
    AttributeError on every non-NULL result (see "## Findings"). That behaviour is modelled
    separately, by `AsWritten.CallU32AsWritten` and `AsWritten.CallArrayAsWritten`, and
    `AsWritten.CallsAsWrittenFail` states it.

## Model

| member | source | states |
|---|---|---|
| Boxing.Mask32 | lean2py/lean2py/ffi.py:87 | `x & 0xFFFFFFFF` is below 2^32 and congruent to `x` modulo 2^32, for either sign |
| Boxing.BoxU32 | lean2py/lean2py/ffi.py:20-22 | the word is odd (tag bit set), carries the low 32 bits of `x` above the tag, and fits in 33 bits |
| Boxing.BoxU64 | lean2py/lean2py/ffi.py:25-30 | succeeds exactly for 0 <= x < 2^32, giving the 32-bit box; every other value raises NotImplementedError |
| Boxing.UnboxU32 | lean2py/lean2py/ffi.py:103-108 | succeeds exactly when the low bit is 1 (NULL counts as 0 and fails); the value is below 2^32 and boxing it again reproduces the low 33 bits of the word; otherwise NotImplementedError |
| Boxing.SlotValue | lean2py/lean2py/ffi.py:176-183 | a tagged slot is decoded as a UInt32 result is; an untagged slot becomes 0 |
| Boxing.UnboxBoxU32 | lean2py/lean2py/ffi.py:103-108 | unboxing a boxed value gives it back modulo 2^32, as a call result and as an array slot |
| Bytes.ToLE | lean2py/lean2py/ffi.py:80-84 | `v.to_bytes(n, "little")` is n bytes long; its meaning is carried by FromToLE |
| Bytes.FromLE | lean2py/lean2py/ffi.py:174 | `int.from_bytes(bs, "little")` is below 256^len(bs); its meaning is carried by FromToLE and ToFromLE |
| Bytes.FromToLE | lean2py/lean2py/ffi.py:83-84 | `int.from_bytes` inverts `to_bytes` for every value that fits in n bytes |
| RawMemory.Store | lean2py/lean2py/ffi.py:79-89 | a slice assignment into a buffer at `addr` sets exactly the bytes from `addr` for the length of `bs`, and no others |
| RawMemory.Load | lean2py/lean2py/ffi.py:174 | reading `n` bytes at `a` returns the n bytes found there, in order |
| RawMemory.StoreConcat | lean2py/lean2py/ffi.py:80-89 | two adjacent slice assignments equal one assignment of the concatenated bytes |
| RawMemory.ReadStoredWord | lean2py/lean2py/ffi.py:174-178 | the 8-byte word read inside a stored image is the little-endian value of the bytes stored there |
| ArrayLayout.ObjectHeader | lean2py/lean2py/ffi.py:77-81 | m_rc = 1 and `LEAN_ARRAY_TAG << 24`, each as 4 little-endian bytes, are the bytes [1,0,0,0,0,0,0,246]: tag 246 in byte 7, m_other and m_cs_sz 0 |
| ArrayLayout.ArrayObjectSize | lean2py/lean2py/ffi.py:68-69 | the size requested from `lean_alloc_object` covers at least the 24-byte header and is a whole number of 8-byte words; ArrayImage shows it is exactly the object's length |
| ArrayLayout.HeaderImage | lean2py/lean2py/ffi.py:80-84 | the header, m_size and m_capacity writes make up exactly the 24 header bytes; HeaderWrites and StoredSize/StoredCapacity give their content |
| ArrayLayout.SlotsImage | lean2py/lean2py/ffi.py:86-89 | the slot loop writes 8 bytes per element; SlotsImageAt and StoredSlot give each slot's content |
| ArrayLayout.ArrayImage | lean2py/lean2py/ffi.py:62-69 | the image of a list of n elements is exactly the 24 + 8n bytes requested from the allocator |
| ArrayLayout.Masked | lean2py/lean2py/ffi.py:87 | element i of the result is element i of the list reduced to 32 bits; same length |
| ArrayLayout.SlotsImageAt | lean2py/lean2py/ffi.py:86-89 | slot i of the image holds the 8 little-endian bytes of the box of element i |
| ArrayLayout.ArrayImageLayout | lean2py/lean2py/ffi.py:79-89 | the image starts with the 8 header bytes, m_size and m_capacity both equal n, and slot i at offset 24 + 8i holds the box of element i |
| ArrayLayout.DecodeArray | lean2py/lean2py/ffi.py:160-183 | NULL gives []; a tag byte at offset 7 other than 246 gives ValueError carrying that tag; otherwise as many elements as the m_size word, element i decoded from the slot at offset 24 + 8i |
| ArrayLayout.DecodeSlots | lean2py/lean2py/ffi.py:176-183 | the decoded values of the first `count` slots, one per slot; which value each is, DecodeSlotsAt states |
| ArrayLayout.SlotsAt | lean2py/lean2py/ffi.py:176-183 | the loop over the slots appends in index order: element i of the decoded slots is the decoding of slot word i |
| ArrayLayout.DecodeSlotsAt | lean2py/lean2py/ffi.py:176-183 | element i of the decoded slots is `SlotValue` of the little-endian word at offset 24 + 8i, for every i below the count |
| ArrayLayout.StoredTag | lean2py/lean2py/ffi.py:166 | a freshly written array object carries tag 246 at offset 7 |
| ArrayLayout.StoredHeaderBytes | lean2py/lean2py/ffi.py:80-81 | a freshly written array object starts with the bytes [1,0,0,0,0,0,0,246] |
| ArrayLayout.StoredSize | lean2py/lean2py/ffi.py:83 | a freshly written array object reads back n as m_size |
| ArrayLayout.StoredCapacity | lean2py/lean2py/ffi.py:84 | a freshly written array object reads back n as m_capacity |
| ArrayLayout.StoredSlot | lean2py/lean2py/ffi.py:86-89 | slot i of a freshly written array object reads back as the box of element i |
| ArrayLayout.DecodeWellFormed | lean2py/lean2py/ffi.py:174-183 | an object with tag 246, size n and slots boxing `xs` decodes to `xs` reduced to 32 bits |
| ArrayLayout.DecodeArrayImage | lean2py/lean2py/ffi.py:160-183 | round trip: decoding the image written for `xs` at a non-NULL address gives `xs` reduced to 32 bits, in order |
| RuntimeLocator.PlatformOf | lean2py/lean2py/ffi.py:41-46 | "win32" selects the Windows names and "darwin" the macOS names, and nothing else does; every other platform gets the `.so` names |
| RuntimeLocator.Candidates | lean2py/lean2py/ffi.py:41-46 | three names in priority order: libInit_shared, libleanshared, libleanshared_2, with the platform's extension |
| RuntimeLocator.FirstUsable | lean2py/lean2py/ffi.py:47-53 | the index of the first candidate that exists and loads, with no earlier one usable; None exactly when none is |
| RuntimeLocator.Locate | lean2py/lean2py/ffi.py:33-54 | a runtime is returned only for an existing directory, and it is the first candidate that exists and loads; one is always returned when such a candidate exists; its entry points are those the loaded file exports |
| RuntimeLocator.GetRuntimeLib | lean2py/lean2py/ffi.py:33-54 | the loop over candidates, falling through on a missing file or a failed load, returns what Locate specifies |
| FfiSpec.Encode | lean2py/lean2py/ffi.py:57-90 | `_array_u32_to_lean` as a state transformer: success gives a non-NULL address after one request of 24 + 8n bytes, the new memory is the old one with the array image stored at that address, and nothing is released; its failures and its layout are stated by EncodeFailures and EncodeLayout |
| FfiSpec.Unbox64Value | lean2py/lean2py/ffi.py:113-120 | an odd word gives the value whose box is the word; an even word gives an 8-byte value; carried by Unbox64Odd and Unbox64Boxed |
| FfiSpec.Unbox64 | lean2py/lean2py/ffi.py:111-129 | `_unbox_u64` never changes memory or allocations, and a tagged word leaves the whole state alone; carried by Unbox64Odd and Unbox64Boxed |
| FfiSpec.ReadArray | lean2py/lean2py/ffi.py:160-189 | `_read_lean_array_u32` never changes memory or allocations, and a decoded non-NULL array has as many elements as its m_size word; carried by ReadArrayReleasesOnce and EncodeThenReadArray |
| FfiSpec.Flexible | lean2py/lean2py/ffi.py:240-248 | the decoding half of the flexible shape never changes memory or allocations; carried by FlexibleTagged, FlexibleArray, FlexibleDoubleRelease and FlexibleNeverFails |
| FfiSpec.ResolveRuntime | lean2py/lean2py/ffi.py:143-144 | `if rt is None: rt = _get_runtime_lib(...)`, repeated at lines 200-201, 227-228 and 259-260: a given runtime is used as is, and there is no runtime exactly when none was given and the locator finds none |
| FfiSpec.DecRefCall | lean2py/lean2py/ffi.py:184-188 | `getattr(rt, "lean_dec_ref_cold", None)` then a call, as also at lines 122-126 and 168-172: at most one release, of the given pointer, and one exactly when the runtime exports the primitive |
| FfiSpec.Invoke | lean2py/lean2py/ffi.py:143-155 | the steps the call shapes share: a successful call used the given or located runtime, found the symbol, and passed a non-NULL array after one request of 24 + 8n bytes; carried also by InvokePassesArray, RuntimeMissingFailsFirst, MissingExportLeaksArgument and InvokeReleasesNothing |
| FfiSpec.CallU32 | lean2py/lean2py/ffi.py:251-270 | `call_array_u32_u32`, corrected to decode the raw word (see "## Findings"): decoding changes no state and yields a value below 2^32; AsWritten.CallU32AsWritten is the code as written |
| FfiSpec.CallU64 | lean2py/lean2py/ffi.py:132-157 | `call_array_u32_u64`: it fails exactly when the shared steps fail, and decoding leaves memory as the call left it |
| FfiSpec.CallArray | lean2py/lean2py/ffi.py:192-213 | `call_array_u32_array_u32`, corrected to decode the raw word (see "## Findings"): memory is left as the call left it, and every element is below 2^32; AsWritten.CallArrayAsWritten is the code as written |
| FfiSpec.CallFlexible | lean2py/lean2py/ffi.py:216-248 | `call_array_u32_flexible`: it fails exactly when the shared steps fail (decoding never fails), and memory is left as the call left it |
| FfiSpec.EncodeFailures | lean2py/lean2py/ffi.py:69-76 | a missing lean_alloc_object raises AttributeError with nothing changed; otherwise exactly one request of 24 + 8n bytes is made; a NULL answer raises RuntimeError before any byte is written; success exactly when the primitive exists and the answer is not NULL; the encoder never releases anything |
| FfiSpec.EncodeLayout | lean2py/lean2py/ffi.py:57-90 | after a successful encoding at p: header bytes [1,0,0,0,0,0,0,246], m_size = m_capacity = n, slot i at p + 24 + 8i holding the box of element i, every byte outside [p, p + 24 + 8n) unchanged |
| FfiSpec.StoredLayout | lean2py/lean2py/ffi.py:79-89 | the layout facts of EncodeLayout for the stored image alone |
| FfiSpec.Unbox64Odd | lean2py/lean2py/ffi.py:113-115 | every odd word, a Nat or UInt64 scalar of any size included, gives `w >> 1` with no memory read and no release |
| FfiSpec.Unbox64Tagged | lean2py/lean2py/ffi.py:25-30 | `_unbox_u64` inverts `_lean_box_u64`: a boxed value below 2^32 comes back unchanged, with no release |
| FfiSpec.Unbox64Boxed | lean2py/lean2py/ffi.py:116-127 | an even word gives the 8-byte little-endian field after the header and releases the object once when lean_dec_ref_cold exists, silently not at all otherwise |
| FfiSpec.ReadArrayReleasesOnce | lean2py/lean2py/ffi.py:160-189 | NULL gives [] with no release; a non-NULL object is released exactly once (when the primitive exists) on both the ValueError path and the success path; memory and allocations are untouched |
| FfiSpec.EncodeThenReadArray | lean2py/lean2py/ffi.py:57-189 | reading the object just encoded, with no call in between, returns `[x & 0xFFFFFFFF for x in xs]` in order and releases it once |
| FfiSpec.FlexibleTagged | lean2py/lean2py/ffi.py:240-243 | an odd raw result is decoded as a scalar `raw >> 1`, with no array read and no release |
| FfiSpec.FlexibleArray | lean2py/lean2py/ffi.py:244-246 | NULL or an even result with tag 246 is decoded exactly as `_read_lean_array_u32` decodes it |
| FfiSpec.FlexibleDoubleRelease | lean2py/lean2py/ffi.py:245-248 | an even non-NULL result with another tag gives the word at offset 8 as a scalar, and the object is released twice: once by the array decoder, once by `_unbox_u64` |
| FfiSpec.FlexibleNeverFails | lean2py/lean2py/ffi.py:245-248 | the array decoder only raises ValueError, which the flexible path catches, so decoding a flexible result never fails |
| FfiSpec.RuntimeMissingFailsFirst | lean2py/lean2py/ffi.py:143-148 | with no runtime given and none found, all four call shapes raise RuntimeError before any allocation, write, call or release |
| FfiSpec.MissingExportLeaksArgument | lean2py/lean2py/ffi.py:143-152 | whether the runtime was given or located, a missing export raises AttributeError after the argument array was allocated and written, and that array is never released |
| FfiSpec.InvokeReleasesNothing | lean2py/lean2py/ffi.py:149-156 | the caller never releases the array it passed to the export |
| FfiSpec.InvokePassesArray | lean2py/lean2py/ffi.py:149-155 | `result = func(arr_ptr)`: on success the export received the address the allocator returned for the 24 + 8n byte request, over the old memory with the encoded array image stored at that address, and the raw result word and the new memory are exactly the export's answer |
| FfiSpec.DecodersReleaseOnlyResult | lean2py/lean2py/ffi.py:111-248 | after the call, the decoders release only the result object: `_unbox_u64` and `_read_lean_array_u32` at most once, the flexible path at most twice; memory and allocations unchanged |
| Ffi.Heap.AllocObject | lean2py/lean2py/ffi.py:74 | the address is the allocator's answer to this request, and the request is recorded |
| Ffi.Heap.DecRefCold | lean2py/lean2py/ffi.py:184-188 | the release is recorded and nothing else changes |
| Ffi.Heap.Write | lean2py/lean2py/ffi.py:79-89 | memory becomes the slice assignment of the bytes at the address |
| Ffi.Heap.CallForeign | lean2py/lean2py/ffi.py:153-155 | the result word and the new memory are those the export produces from the argument and the old memory |
| Ffi.ReleaseIfAvailable | lean2py/lean2py/ffi.py:184-188 | one release of the pointer when lean_dec_ref_cold exists, none otherwise |
| Ffi.HeaderWrites | lean2py/lean2py/ffi.py:80-84 | the four header writes together lay down the 24-byte header image |
| Ffi.ImageStep | lean2py/lean2py/ffi.py:86-89 | writing the box of the masked next element extends the image by that element's slot |
| Ffi.WriteHeader | lean2py/lean2py/ffi.py:79-84 | memory becomes the old memory with the header image stored at the address |
| Ffi.WriteSlots | lean2py/lean2py/ffi.py:85-89 | after the loop, memory holds the whole array image on top of the memory before the header writes |
| Ffi.ArrayU32ToLean | lean2py/lean2py/ffi.py:57-90 | result and new state are those of `FfiSpec.Encode`, whose failures and layout EncodeFailures and EncodeLayout state |
| Ffi.ArrayF64ToLean | lean2py/lean2py/ffi.py:93-100 | always fails with NotImplementedError, whatever the list |
| Ffi.UnboxU64 | lean2py/lean2py/ffi.py:111-129 | value and new state are those of `FfiSpec.Unbox64`, described by Unbox64Tagged and Unbox64Boxed |
| Ffi.ReadLeanArrayU32 | lean2py/lean2py/ffi.py:160-189 | result and new state are those of `FfiSpec.ReadArray`: the decoding of DecodeArray and the single release of ReadArrayReleasesOnce |
| Ffi.Invoke | lean2py/lean2py/ffi.py:143-155 | the steps every call shape shares (runtime, encoding, export lookup, call) have the effect of `FfiSpec.Invoke` |
| Ffi.CallArrayU32U32 | lean2py/lean2py/ffi.py:251-270 | result and state of `FfiSpec.CallU32`: the shared steps, then the raw word decoded by `Boxing.UnboxU32`; this is the corrected shape, and AsWritten.CallsAsWrittenFail states how the code as written fails |
| Ffi.CallArrayU32U64 | lean2py/lean2py/ffi.py:132-157 | result and state of `FfiSpec.CallU64`: the shared steps, then `_unbox_u64` |
| Ffi.CallArrayU32ArrayU32 | lean2py/lean2py/ffi.py:192-213 | result and state of `FfiSpec.CallArray`: the shared steps, then `_read_lean_array_u32` on the raw word; this is the corrected shape, and AsWritten.CallsAsWrittenFail states how the code as written fails |
| Ffi.CallArrayU32Flexible | lean2py/lean2py/ffi.py:216-248 | result and state of `FfiSpec.CallFlexible`: low bit set is a scalar, otherwise the array decoder, with ValueError falling back to `_unbox_u64` |
| Ffi.EncodeThenRead | lean2py/lean2py/ffi.py:57-189 | encoding and reading back succeeds exactly when the allocator primitive exists and answers non-NULL, and then returns the list reduced to 32 bits with one release of the object and the image stored at the new address; it requests 24 + 8n bytes whenever the primitive exists; a missing primitive raises AttributeError and a NULL answer RuntimeError, with memory and releases unchanged |
| AsWritten.CtypesResult | lean2py/lean2py/ffi.py:153-155 | a `c_void_p` result reaches Python as None for NULL and as a plain int otherwise |
| AsWritten.ValueAttribute | lean2py/lean2py/ffi.py:105 | `.value` exists only on a `c_void_p` object; on an int it raises AttributeError |
| AsWritten.UnboxU32AsWritten | lean2py/lean2py/ffi.py:103-108 | on a `c_void_p` object it agrees with the corrected decoder; a falsy result decodes as the word 0 |
| AsWritten.ReadArrayAsWritten | lean2py/lean2py/ffi.py:160-164 | on a `c_void_p` object it agrees with the corrected decoder; a falsy result is [] with nothing released |
| AsWritten.CallU32AsWritten | lean2py/lean2py/ffi.py:251-270 | `call_array_u32_u32` as written leaves the state the shared steps left, and agrees with the corrected shape whenever those steps fail; CallsAsWrittenFail states the rest |
| AsWritten.CallArrayAsWritten | lean2py/lean2py/ffi.py:192-213 | `call_array_u32_array_u32` as written leaves memory as the call left it, and agrees with the corrected shape whenever the shared steps fail; CallsAsWrittenFail states the rest |
| AsWritten.UnboxU32AsWrittenFails | lean2py/lean2py/ffi.py:105 | for every non-NULL result the code as written raises AttributeError, and it agrees with the corrected decoder exactly on NULL |
| AsWritten.UnboxU32Counterexample | lean2py/lean2py/ffi.py:105 | the result word 7 (the box of 3) raises AttributeError as written, while the corrected decoder returns 3 |
| AsWritten.ReadArrayAsWrittenFails | lean2py/lean2py/ffi.py:164 | for every non-NULL result the code as written raises AttributeError before reading the header and without releasing the object |
| AsWritten.ReadArrayCounterexample | lean2py/lean2py/ffi.py:164 | for a well-formed array object, the list is lost and the object leaked as written, while the corrected decoder returns the elements and releases it once |
| AsWritten.CallsAsWrittenFail | lean2py/lean2py/ffi.py:192-270 | whenever the export returns a non-NULL word, `call_array_u32_u32` and `call_array_u32_array_u32` as written raise AttributeError, while the corrected shapes decode that word with `_unbox_u32` and `_read_lean_array_u32` |
| ExportParser.SkipSpace | bigo_gen/lean2py/parser.py:23 | the end of the maximal whitespace run from i, as `\s*` consumes it |
| ExportParser.SkipWord | bigo_gen/lean2py/parser.py:27 | the end of the maximal word-character run from i, as a greedy `\w+` consumes it |
| ExportParser.FindChar | bigo_gen/lean2py/parser.py:26 | the first occurrence of the character at or after i, or the end of the text, with none before it |
| ExportParser.SkipFiller | bigo_gen/lean2py/parser.py:25-26 | consumes whitespace and complete `[...]` groups, and stops only at the end, at another character, or at a `[` with no closing `]` |
| ExportParser.FillerEnd | bigo_gen/lean2py/parser.py:25-27 | any run of whitespace and groups that ends before a non-space, non-`[` character ends where SkipFiller stops, so the filler before `def` is determined |
| ExportParser.FillerFirst | bigo_gen/lean2py/parser.py:25-26 | after its leading whitespace, a filler continues with a `[` group or has ended |
| ExportParser.MatchOpen | bigo_gen/lean2py/parser.py:23 | a result is a match of `@\s*\[\s*export\s+` at p |
| ExportParser.MatchSymbol | bigo_gen/lean2py/parser.py:24 | a result is a match of `"([^"]+)"` or `(\w+)` at the position |
| ExportParser.MatchTail | bigo_gen/lean2py/parser.py:25-27 | a result is a match of the rest of the pattern, ending with a maximal name |
| ExportParser.MatchAt | bigo_gen/lean2py/parser.py:22-29 | a match found at p is a match of the whole pattern starting at p |
| ExportParser.OpenComplete | bigo_gen/lean2py/parser.py:23 | every match of the opening pieces that is followed by a non-space (as the symbol is) is the one MatchOpen finds |
| ExportParser.SymbolComplete | bigo_gen/lean2py/parser.py:24 | every match of the symbol alternative that can be followed by the rest of the pattern is the one MatchSymbol finds |
| ExportParser.TailComplete | bigo_gen/lean2py/parser.py:25-27 | every match of the closing pieces is the one MatchTail finds |
| ExportParser.MatchAtComplete | bigo_gen/lean2py/parser.py:22-29 | every match of the pattern is the one MatchAt finds at its start: one match per position |
| ExportParser.MatchAtExact | bigo_gen/lean2py/parser.py:22-29 | MatchAt at p returns t if and only if t is a match of the pattern starting at p |
| ExportParser.FindIter | bigo_gen/lean2py/parser.py:30 | the reported matches lie within the text, in increasing order, without overlap |
| ExportParser.FindIterStep | bigo_gen/lean2py/parser.py:30 | a position without a match is skipped; a match is reported and the search resumes at its end |
| ExportParser.FindIterSound | bigo_gen/lean2py/parser.py:30 | every reported match is the pattern's match at its own start |
| ExportParser.FindIterOuterGaps | bigo_gen/lean2py/parser.py:30 | no match starts before the first reported one or after the last; nothing is reported only when no position matches |
| ExportParser.FindIterInnerGaps | bigo_gen/lean2py/parser.py:30 | no match starts in the gap between two consecutive reported matches |
| ExportParser.FindIterLeftmost | bigo_gen/lean2py/parser.py:30 | every match is either reported or starts strictly inside a reported match |
| ExportParser.IsParse | bigo_gen/lean2py/parser.py:22-29 | the language of the pattern, a definition with no contract of its own, built from the pieces OpenAt (line 23), SymbolAt (line 24) and TailAt with Filler (lines 25-27): `@`, `[`, `export`, a quoted or bare symbol, `]`, further bracketed attributes, `def` and a name taking every word character it can; ParseFields states what every match holds and MatchAtExact that the scanner finds exactly these |
| ExportParser.Pattern | bigo_gen/lean2py/parser.py:22-29 | the compiled pattern finds, at each position, a match that starts there and ends inside the text |
| ExportParser.MatchesSound | bigo_gen/lean2py/parser.py:30 | every match `finditer` reports is a match of the pattern, found at its start |
| ExportParser.MatchesLeftmost | bigo_gen/lean2py/parser.py:30 | every match of the pattern that `finditer` does not report starts strictly inside one it does report |
| ExportParser.ExportsOfCons | bigo_gen/lean2py/parser.py:31-34 | the records of a run of matches are the record of the first (if its fields are non-empty) followed by those of the rest |
| ExportParser.Matches | bigo_gen/lean2py/parser.py:30 | `pattern.finditer(lean_source)`: matches inside the text, in order and not overlapping; MatchesSound and MatchesLeftmost show they are the leftmost non-overlapping matches |
| ExportParser.Exports | bigo_gen/lean2py/parser.py:14-35 | what `parse_exports` returns: at most one record per match, each with a non-empty C symbol and Lean name; ExportsAreMatches shows there is exactly one per match |
| ExportParser.ParseExports | bigo_gen/lean2py/parser.py:14-35 | the loop over `finditer` returns exactly the records of the reported matches, in order |
| ExportParser.ScanStep | bigo_gen/lean2py/parser.py:30-34 | one turn of the scan at position p: the records it yields, followed by the records of the scan from the position it returns, are the records of the scan from p, and that position lies after p and inside the text |
| ExportParser.ExportsOfKeepsAll | bigo_gen/lean2py/parser.py:31-34 | the test `if c_symbol and lean_name` never drops a match: one record per match, holding its symbol text and its name |
| ExportParser.ExportsAreMatches | bigo_gen/lean2py/parser.py:14-35 | `parse_exports` returns one record per reported match, in source order, with the matched symbol and name |
| ExportParser.ParseFields | bigo_gen/lean2py/parser.py:24-27 | in every match: symbol and name are non-empty; a quoted symbol has no `"`; a bare symbol is all word characters and no word character follows it; the name is a maximal run of word characters |
| ExportParser.MatchFields | bigo_gen/lean2py/parser.py:24-34 | the fields of ParseFields hold for every reported match |
| ExportParser.AfterAttribute | bigo_gen/lean2py/parser.py:25-27 | in every match, the first non-space character after the attribute's `]` is a `[` or starts `def`; a modifier, a second `@[...]` or a missing `def` leaves the attribute unmatched |
| ExportParser.NoAtNoExports | bigo_gen/lean2py/parser.py:23 | every match starts at `@`, so a source without one yields no records |

## Left out

- Loading libraries with `ctypes.CDLL`, `argtypes`/`restype` setup and real pointers are not
  modelled. The allocator, the exports and `lean_dec_ref_cold` are abstract functions over the
  modelled memory, and a result pointer is its raw word, with NULL as 0.
- `lean_dec_ref_cold` is recorded as a release. The model does not follow what the runtime does
  to the object's memory.
- The filesystem and the OS loader of `_get_runtime_lib` (`Path.is_dir`, `Path.exists`, whether
  `CDLL` raises OSError, which symbols the loaded file exports) are predicates in the locator's
  environment.
- Ffi.UnboxU64: an even word is read as an object address, the NULL word included. In the
  real process a read at address 8 crashes the process; no Python exception is raised, so the
  `except Exception` branch of `_unbox_u64` (lean2py/lean2py/ffi.py:128-129) does not apply to
  it. In the model the read returns the modelled memory. That branch is not modelled because no
  step of the model raises there.
- FfiSpec.FlexibleDoubleRelease: after the first `lean_dec_ref_cold`, the object may be freed,
  so `_unbox_u64`'s read at offset 8 can read freed memory in the real process. Because a
  release does not change the modelled memory, the model returns the word as it was before
  the release.
- Exception messages are not modelled, only the exception class and the error kind.
- Ffi.ArrayF64ToLean: floats are not modelled; the function ignores its argument, as the code does.
- `to_bytes` raising OverflowError is not modelled: every value written fits its width,
  because Python lists are shorter than 2^63 and boxed values are below 2^33.
- Python's `\w` also matches non-ASCII letters and digits. ExportParser.IsWordChar accepts
  ASCII letters, digits and `_` only. `\s` follows Python's Unicode whitespace exactly.
- `re.MULTILINE` and `re.DOTALL` do not change what this pattern matches: it has no `^`, `$`
  or `.`. They have no counterpart in the model.
- The rest of the repository is not part of this model, because it has no logic of its own
  beyond orchestration:
  - `lean2py/lean2py/build.py`: subprocess calls and file copying;
  - `lean2py/lean2py/cli.py`: argument parsing and printing;
  - `bigo_gen/lean2py/pipeline.py`: file I/O, templates and build calls;
  - both `__init__.py` files: re-exports only;
  - the generated Python bindings: source templating.
- Concurrency: the layer is single-threaded and so is the model.

## Findings

| source | as written | input that shows it | evidently intended | confidence | as-written member | corrected member |
|---|---|---|---|---|---|---|
| lean2py/lean2py/ffi.py:105 | `_unbox_u32` reads `result_ptr.value`, but with `restype = c_void_p` ctypes hands back a plain int (or None), which has no `.value` | the export returns the word 7, the box of 3: AttributeError is raised | decode the raw word, as `_unbox_u64` does with `getattr(result, "value", result)`: 7 decodes to 3 | not executed | AsWritten.UnboxU32Counterexample | Boxing.UnboxU32 |
| lean2py/lean2py/ffi.py:164 | `_read_lean_array_u32` reads `ptr.value`, but `call_array_u32_array_u32` passes it the plain int ctypes returned | the export returns any non-NULL array object: AttributeError is raised, the list is lost and the object is never released | read the header at the raw address and release once: the encoded list comes back reduced to 32 bits | not executed | AsWritten.ReadArrayCounterexample | FfiSpec.EncodeThenReadArray |
