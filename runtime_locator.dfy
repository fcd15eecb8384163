/** `_get_runtime_lib` (lean2py/lean2py/ffi.py:33-54): the platform's candidate file names for
    the Lean runtime, tried in order; the first that exists and loads wins. The filesystem and
    the OS loader are abstract predicates over candidate names. */
module RuntimeLocator {
  import opened Failures

  datatype Platform = Windows | MacOS | OtherUnix

  /** The host runtime library a successful load yields, with the two runtime entry points the
      layer looks up on it. */
  datatype RuntimeLib = RuntimeLib(name: string, hasAlloc: bool, hasDecRef: bool)

  /** What the locator can observe: the directory it was given (None when the caller passed
      None), whether it is a directory, and per candidate name whether the file exists, whether
      `ctypes.CDLL` loads it, and which runtime entry points it exports. */
  datatype LocatorEnv = LocatorEnv(
    platform: Platform,
    binDir: Option<string>,
    isDir: string -> bool,
    fileExists: string -> bool,
    loads: string -> bool,
    exportsAlloc: string -> bool,
    exportsDecRef: string -> bool)

  /** `sys.platform` mapped to the three branches of the name table. */
  function PlatformOf(sysPlatform: string): (p: Platform)
    ensures p == Windows <==> sysPlatform == "win32"
    ensures p == MacOS <==> sysPlatform == "darwin"
  {
    if sysPlatform == "win32" then Windows
    else if sysPlatform == "darwin" then MacOS
    else OtherUnix
  }

  function Extension(p: Platform): string
  {
    match p
    case Windows => ".dll"
    case MacOS => ".dylib"
    case OtherUnix => ".so"
  }

  /** The candidate names, in priority order: the shared Init library, then libleanshared,
      then libleanshared_2, each with the platform's shared-library extension. */
  function Candidates(p: Platform): (names: seq<string>)
    ensures |names| == 3
    ensures names[0] == "libInit_shared" + Extension(p)
    ensures names[1] == "libleanshared" + Extension(p)
    ensures names[2] == "libleanshared_2" + Extension(p)
  {
    match p
    case Windows => ["libInit_shared.dll", "libleanshared.dll", "libleanshared_2.dll"]
    case MacOS => ["libInit_shared.dylib", "libleanshared.dylib", "libleanshared_2.dylib"]
    case OtherUnix => ["libInit_shared.so", "libleanshared.so", "libleanshared_2.so"]
  }

  /** A candidate is taken when its file exists and loading it does not raise OSError. */
  predicate Usable(env: LocatorEnv, name: string)
  {
    env.fileExists(name) && env.loads(name)
  }

  /** The index of the first usable name at or after `from`, if any. */
  function FirstUsable(env: LocatorEnv, names: seq<string>, from: nat): (r: Option<nat>)
    requires from <= |names|
    ensures r.Some? ==> from <= r.value < |names| && Usable(env, names[r.value])
    ensures r.Some? ==> forall j | from <= j < r.value :: !Usable(env, names[j])
    ensures r.None? ==> forall j | from <= j < |names| :: !Usable(env, names[j])
    decreases |names| - from
  {
    if from == |names| then None
    else if Usable(env, names[from]) then Some(from)
    else FirstUsable(env, names, from + 1)
  }

  /** The runtime `_get_runtime_lib` returns, None when it returns None. */
  function Locate(env: LocatorEnv): (r: Option<RuntimeLib>)
    ensures r.Some? ==> env.binDir.Some? && env.isDir(env.binDir.value)
    ensures r.Some? ==> exists i | 0 <= i < 3 :: r.value.name == Candidates(env.platform)[i]
                                                 && Usable(env, Candidates(env.platform)[i])
                                                 && forall j | 0 <= j < i :: !Usable(env, Candidates(env.platform)[j])
    ensures r.Some? ==> r.value.hasAlloc == env.exportsAlloc(r.value.name)
                        && r.value.hasDecRef == env.exportsDecRef(r.value.name)
    ensures (env.binDir.Some? && env.isDir(env.binDir.value) &&
             exists i | 0 <= i < 3 :: Usable(env, Candidates(env.platform)[i])) ==> r.Some?
  {
    if env.binDir.None? || !env.isDir(env.binDir.value) then None
    else
      var names := Candidates(env.platform);
      match FirstUsable(env, names, 0)
      case None => None
      case Some(i) => Some(RuntimeLib(names[i], env.exportsAlloc(names[i]), env.exportsDecRef(names[i])))
  }

  /** The loop of `_get_runtime_lib`: try each candidate in turn, fall through when the file is
      missing or the load fails. */
  method GetRuntimeLib(env: LocatorEnv) returns (r: Option<RuntimeLib>)
    ensures r == Locate(env)
  {
    if env.binDir.None? {
      return None;
    }
    if !env.isDir(env.binDir.value) {
      return None;
    }
    var names := Candidates(env.platform);
    var k := 0;
    while k < |names|
      invariant 0 <= k <= |names|
      invariant FirstUsable(env, names, 0) == FirstUsable(env, names, k)
    {
      var name := names[k];
      if env.fileExists(name) {
        if env.loads(name) {
          return Some(RuntimeLib(name, env.exportsAlloc(name), env.exportsDecRef(name)));
        }
      }
      k := k + 1;
    }
    return None;
  }
}
