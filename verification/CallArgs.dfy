/**
 * The call arguments ProcHandle builds for loadLibrary and getSym: the
 * name-length guard and the IN stack blob holding the NUL-terminated name.
 */
module CallArgs {
  import opened Common

  /** VEO_SYMNAME_LEN_MAX: the longest library or symbol name accepted. */
  const SymNameLenMax: nat := 255

  datatype Intent = In | Out | InOut

  /** What a stack argument carries: raw bytes, or the create-thread attribute record. */
  datatype StackData =
    | Bytes(bytes: string)
    | ThreadAttr(cpu: int, stackSize: u64)

  /** One stack-passed argument: copy direction, argument position, contents. */
  datatype StackArg = StackArg(intent: Intent, index: nat, data: StackData)

  /** Register arguments by position, and the stack arguments in the order they were set. */
  datatype Args = Args(regs: map<nat, int>, stack: seq<StackArg>)

  const NoArgs: Args := Args(map[], [])

  /** strlen: the number of characters before the first NUL. */
  function StrLen(s: string): (n: nat)
    ensures n <= |s| && '\0' !in s[..n]
    ensures n == |s| || s[n] == '\0'
  {
    if s == [] || s[0] == '\0' then 0
    else
      var n := 1 + StrLen(s[1..]);
      assert s[..n] == [s[0]] + s[1..][..n - 1];
      n
  }

  /** The C string `s` denotes: its characters before the first NUL. */
  function CString(s: string): string
  {
    s[..StrLen(s)]
  }

  /** The name as the device receives it: its characters and the terminating NUL (len + 1 bytes). */
  function NameBlob(name: string): (blob: string)
    ensures |blob| == StrLen(name) + 1
    ensures blob[..StrLen(name)] == CString(name) && blob[StrLen(name)] == '\0'
  {
    CString(name) + ['\0']
  }

  /** The length guard of loadLibrary and getSym: names longer than VEO_SYMNAME_LEN_MAX are refused. */
  function CheckName(name: string): (r: Result<string>)
    ensures r.Err? <==> StrLen(name) > SymNameLenMax
    ensures r.Err? ==> r.error == NameTooLong
    ensures r.Ok? ==> r.value == NameBlob(name)
  {
    if StrLen(name) > SymNameLenMax then Err(NameTooLong) else Ok(NameBlob(name))
  }

  /** The arguments of load_library: no register argument, the name as IN stack argument 0. */
  function LoadLibraryArgs(libname: string): (r: Result<Args>)
    ensures r.Err? <==> StrLen(libname) > SymNameLenMax
    ensures r.Ok? ==> r.value.regs == map[] && |r.value.stack| == 1
    ensures r.Ok? ==> r.value.stack[0].intent == In && r.value.stack[0].index == 0
    ensures r.Ok? ==> r.value.stack[0].data == Bytes(NameBlob(libname))
  {
    match CheckName(libname)
    case Err(e) => Err(e)
    case Ok(blob) => Ok(Args(map[], [StackArg(In, 0, Bytes(blob))]))
  }

  /** The arguments of find_sym: the library handle in register 0, the name as IN stack argument 1. */
  function GetSymArgs(libhdl: u64, symname: string): (r: Result<Args>)
    ensures r.Err? <==> StrLen(symname) > SymNameLenMax
    ensures r.Ok? ==> r.value.regs == map[0 := libhdl as int] && |r.value.stack| == 1
    ensures r.Ok? ==> r.value.stack[0].intent == In && r.value.stack[0].index == 1
    ensures r.Ok? ==> r.value.stack[0].data == Bytes(NameBlob(symname))
  {
    match CheckName(symname)
    case Err(e) => Err(e)
    case Ok(blob) => Ok(Args(map[0 := libhdl as int], [StackArg(In, 1, Bytes(blob))]))
  }

  /** StrLen is determined by its postcondition. */
  lemma StrLenUnique(s: string, n: nat)
    requires n <= |s| && '\0' !in s[..n]
    requires n == |s| || s[n] == '\0'
    ensures StrLen(s) == n
  {
  }

  /** Round trip: the device reading the blob as a C string gets the caller's name back. */
  lemma NameBlobRoundTrip(name: string)
    ensures StrLen(NameBlob(name)) == StrLen(name)
    ensures CString(NameBlob(name)) == CString(name)
  {
    var blob := NameBlob(name);
    StrLenUnique(blob, StrLen(name));
  }

  /** The guard's boundary: a name of exactly VEO_SYMNAME_LEN_MAX characters passes, one more fails. */
  lemma NameLengthBoundary(name: string, c: char)
    requires '\0' !in name && c != '\0' && |name| == SymNameLenMax
    ensures CheckName(name).Ok?
    ensures CheckName(name + [c]) == Err(NameTooLong)
  {
    StrLenUnique(name, |name|);
    assert (name + [c])[..|name + [c]|] == name + [c];
    StrLenUnique(name + [c], |name| + 1);
  }
}
