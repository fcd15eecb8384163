/** Error kinds raised by the marshalling layer, and the Result/Option wrappers the model uses
    in place of Python exceptions and `None`. */
module Failures {

  /** The Python exception classes the layer raises. */
  datatype PyException = RuntimeError | AttributeError | ValueError | NotImplementedError

  /** One constructor per distinct raise site of lean2py/lean2py/ffi.py. */
  datatype Error =
    | RuntimeNotFound                      // no runtime handle and the locator found none
    | RuntimeSymbolMissing(name: string)   // attribute lookup on the runtime library failed
    | AllocFailed                          // lean_alloc_object returned NULL
    | ExportNotFound(symbol: string)       // the target library has no such export
    | NotAnArray(tag: int)                 // the object's tag byte is not LEAN_ARRAY_TAG
    | BoxedU32Unsupported                  // a UInt32 result that is not a tagged scalar
    | Box64Unsupported                     // boxing a value that does not fit in 32 bits
    | FloatArrayUnsupported                // Array Float arguments
    | NoValueAttribute                     // `.value` read on a plain Python int

  /** The Python class of each error, which decides what an `except` clause catches. */
  function ExceptionClass(e: Error): PyException
  {
    match e
    case RuntimeNotFound => RuntimeError
    case AllocFailed => RuntimeError
    case RuntimeSymbolMissing(_) => AttributeError
    case ExportNotFound(_) => AttributeError
    case NoValueAttribute => AttributeError
    case NotAnArray(_) => ValueError
    case BoxedU32Unsupported => NotImplementedError
    case Box64Unsupported => NotImplementedError
    case FloatArrayUnsupported => NotImplementedError
  }

  datatype Result<T> = Success(value: T) | Failure(error: Error)

  datatype Option<T> = None | Some(value: T)
}
