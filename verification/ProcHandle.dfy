/**
 * The ProcHandle of the VE offload library: the handle on one VE process.
 * Every request sent to the VE side goes through an oracle `Reply` (what
 * the worker reports back) and is appended to the handle's `issued` log,
 * so "no request reaches the VE" reads "issued is unchanged".
 */
module ProcHandles {
  import opened Common
  import opened DispatchTable
  import opened CallArgs
  import SocketName

  /** ERR_MSG_LEN: the size of the VE buffer holding the dlerror() text. */
  const ErrMsgLen: nat := 256

  /** max_cpu_num: the number of CPUs the placement cycles over (CPUs 0 to 7). */
  const MaxCpuNum: int := 8

  datatype ThreadState = Unknown | Running | Syscall | Blocked | Exit

  /** A request that reaches the VE side. */
  datatype DeviceCall =
    | Call(func: u64, args: Args)       // a helper function called on the worker
    | ReadMem(src: u64, size: nat)      // a transfer of VE memory to the host

  /** What a request reports when the host waits for it: VEO_COMMAND_OK and its value, or any other status. */
  datatype Reply = Completed(value: u64) | Failed

  /** A result together with the requests issued to reach it. */
  datatype Outcome<T> = Outcome(result: Result<T>, calls: seq<DeviceCall>)

  /** The outcome of doOnContext: the returned value, or "request failed" for any status but OK. */
  function Completion(reply: Reply): (r: Result<u64>)
    ensures r.Ok? <==> reply.Completed?
    ensures reply.Completed? ==> r == Ok(reply.value)
    ensures r.Err? ==> r.error == RequestFailed
  {
    match reply
    case Completed(v) => Ok(v)
    case Failed => Err(RequestFailed)
  }

  function Min(a: nat, b: nat): nat { if a < b then a else b }

  // ----- loadLibraryError -----

  /** What the VE side answers to the four requests of loadLibraryError, and the text it holds. */
  datatype ErrDevice = ErrDevice(alloc: Reply, loadErr: Reply, read: Reply, message: string, free: Reply)

  /** allocBuff handed back a usable (non-zero) VE buffer. */
  predicate Allocated(dev: ErrDevice)
  {
    dev.alloc.Completed? && dev.alloc.value != 0
  }

  /** The value `rv` holds after the load_library_err request: its signed answer, or `rvOnFailure`. */
  function ErrRv(dev: ErrDevice, rvOnFailure: int): int
  {
    match dev.loadErr
    case Completed(v) => SignedOf(v)
    case Failed => rvOnFailure
  }

  /**
   * The steps of loadLibraryError, with `rvOnFailure` standing for the value
   * `rv` holds when the load_library_err request throws.
   */
  function LoadLibraryErrorWith(funcs: HelperFunctions, dev: ErrDevice, rvOnFailure: int): (o: Outcome<int>)
    ensures 1 <= |o.calls| <= 4
    ensures o.result.Ok? ==> o.result.value in {0, -1}
    ensures o.result == Ok(0) <==>
      && Allocated(dev) && ErrRv(dev, rvOnFailure) >= 0
      && dev.read.Completed? && Int32Of(dev.read.value) == 0
      && dev.free.Completed?
    ensures o.result.Err? ==> o.result.error in {AssertionAbort, RequestFailed}
    // readMem's VEO_ASSERT aborts, and a throwing freeBuff propagates
    ensures o.result == Err(AssertionAbort) <==>
      Allocated(dev) && ErrRv(dev, rvOnFailure) >= 0 && dev.read.Failed?
    ensures o.result == Err(RequestFailed) <==>
      && Allocated(dev) && ErrRv(dev, rvOnFailure) >= 0
      && dev.read.Completed? && Int32Of(dev.read.value) == 0
      && dev.free.Failed?
    // the requests, in order, and how far the steps get
    ensures o.calls[0] == Call(funcs.allocBuff, Args(map[0 := ErrMsgLen], []))
    ensures |o.calls| >= 2 <==> Allocated(dev)
    ensures |o.calls| >= 2 ==>
      o.calls[1] == Call(funcs.loadLibraryErr, Args(map[0 := dev.alloc.value as int, 1 := ErrMsgLen], []))
    ensures |o.calls| >= 3 <==> Allocated(dev) && ErrRv(dev, rvOnFailure) >= 0
    ensures |o.calls| >= 3 ==> o.calls[2] == ReadMem(dev.alloc.value, ErrMsgLen)
    ensures |o.calls| == 4 <==> o.result == Ok(0) || o.result == Err(RequestFailed)
    ensures |o.calls| == 4 ==> o.calls[3] == Call(funcs.freeBuff, Args(map[0 := dev.alloc.value as int], []))
  {
    var allocCall := Call(funcs.allocBuff, Args(map[0 := ErrMsgLen], []));
    match dev.alloc
    case Failed => Outcome(Ok(-1), [allocCall])
    case Completed(buff) =>
      if buff == 0 then Outcome(Ok(-1), [allocCall])
      else
        var errCall := Call(funcs.loadLibraryErr, Args(map[0 := buff as int, 1 := ErrMsgLen], []));
        var rv := ErrRv(dev, rvOnFailure);
        if rv < 0 then Outcome(Ok(-1), [allocCall, errCall])
        else
          var readCall := ReadMem(buff, ErrMsgLen);
          match dev.read
          case Failed => Outcome(Err(AssertionAbort), [allocCall, errCall, readCall])
          case Completed(ret) =>
            if Int32Of(ret) != 0 then Outcome(Ok(-1), [allocCall, errCall, readCall])
            else
              var freeCall := Call(funcs.freeBuff, Args(map[0 := buff as int], []));
              match dev.free
              case Failed => Outcome(Err(RequestFailed), [allocCall, errCall, readCall, freeCall])
              case Completed(_) => Outcome(Ok(0), [allocCall, errCall, readCall, freeCall])
  }

  /** loadLibraryError as written: a failed load_library_err leaves `rv` holding whatever it held. */
  function LoadLibraryErrorAsWritten(funcs: HelperFunctions, dev: ErrDevice, garbage: int): (o: Outcome<int>)
    ensures dev.loadErr.Completed? ==> o == LoadLibraryErrorWith(funcs, dev, -1)
  {
    LoadLibraryErrorWith(funcs, dev, garbage)
  }

  /** A failed load_library_err request can be reported as success when `rv` happens to be non-negative. */
  lemma LoadLibraryErrorAsWrittenMisreports(funcs: HelperFunctions, message: string)
    ensures var dev := ErrDevice(Completed(1), Failed, Completed(0), message, Completed(0));
      LoadLibraryErrorAsWritten(funcs, dev, 0).result == Ok(0)
  {
  }

  /** loadLibraryError as intended: a failed load_library_err request is a failure (-1). */
  function LoadLibraryErrorSpec(funcs: HelperFunctions, dev: ErrDevice): (o: Outcome<int>)
    ensures dev.loadErr.Failed? ==> o.result == Ok(-1)
    ensures dev.alloc.Completed? && dev.alloc.value != 0 && dev.loadErr.Failed? ==> |o.calls| == 2
    ensures o.result == Ok(0) <==>
      && dev.alloc.Completed? && dev.alloc.value != 0
      && dev.loadErr.Completed? && SignedOf(dev.loadErr.value) >= 0
      && dev.read.Completed? && Int32Of(dev.read.value) == 0
      && dev.free.Completed?
  {
    LoadLibraryErrorWith(funcs, dev, -1)
  }

  // ----- loadLibrary -----

  /** loadLibrary: the guard, the load_library request, and the diagnostic fetch after a failed load. */
  function LoadLibrarySpec(funcs: HelperFunctions, libname: string, reply: Reply, dev: ErrDevice): (o: Outcome<u64>)
    ensures StrLen(libname) > SymNameLenMax <==> o.result == Err(NameTooLong)
    ensures StrLen(libname) > SymNameLenMax ==> o.calls == []
    ensures StrLen(libname) <= SymNameLenMax ==>
      |o.calls| >= 1 && o.calls[0] == Call(funcs.loadLibrary, LoadLibraryArgs(libname).value)
    ensures o.result.Ok? ==> reply == Completed(o.result.value)
    ensures |o.calls| > 1 <==>
      StrLen(libname) <= SymNameLenMax && reply == Completed(0) && funcs.version >= VeorunVersion4
    ensures StrLen(libname) <= SymNameLenMax && reply.Completed? && reply.value != 0 ==>
      o == Outcome(Ok(reply.value), [Call(funcs.loadLibrary, LoadLibraryArgs(libname).value)])
    ensures StrLen(libname) <= SymNameLenMax && reply.Failed? ==> o.result == Err(RequestFailed)
    // a zero handle is the failure value loadLibrary returns
    ensures StrLen(libname) <= SymNameLenMax && reply == Completed(0) && funcs.version < VeorunVersion4 ==>
      o.result == Ok(0)
    ensures StrLen(libname) <= SymNameLenMax && reply == Completed(0) && funcs.version >= VeorunVersion4 ==>
      var d := LoadLibraryErrorSpec(funcs, dev);
      && o.calls[1..] == d.calls
      && o.result == (if d.result.Err? then Err(d.result.error) else Ok(0))
  {
    match LoadLibraryArgs(libname)
    case Err(e) => Outcome(Err(e), [])
    case Ok(args) =>
      var call := Call(funcs.loadLibrary, args);
      match Completion(reply)
      case Err(e) => Outcome(Err(e), [call])
      case Ok(handle) =>
        if handle == 0 && funcs.version >= VeorunVersion4 then
          var diag := LoadLibraryErrorSpec(funcs, dev);
          Outcome(if diag.result.Err? then Err(diag.result.error) else Ok(handle), [call] + diag.calls)
        else Outcome(Ok(handle), [call])
  }

  // ----- getSym and its cache -----

  /** A cache key: the library handle and the symbol name. */
  type SymKey = (u64, string)

  /** The cache invariant: only accepted names, and only non-zero addresses, are cached. */
  predicate CacheValid(cache: map<SymKey, u64>)
  {
    forall k :: k in cache ==> cache[k] != 0 && |k.1| <= SymNameLenMax
  }

  datatype SymOutcome = SymOutcome(result: Result<u64>, cache: map<SymKey, u64>, calls: seq<DeviceCall>)

  /** getSym: the guard, a cache lookup, and on a miss the find_sym request whose non-zero answer is cached. */
  function GetSymSpec(cache: map<SymKey, u64>, findSym: u64, libhdl: u64, symname: string, reply: Reply): (o: SymOutcome)
    ensures StrLen(symname) > SymNameLenMax ==> o == SymOutcome(Err(NameTooLong), cache, [])
    ensures var key := (libhdl, CString(symname));
      && (StrLen(symname) <= SymNameLenMax && key in cache ==> o == SymOutcome(Ok(cache[key]), cache, []))
      && (StrLen(symname) <= SymNameLenMax && key !in cache ==>
            && o.result == Completion(reply)
            && o.calls == [Call(findSym, GetSymArgs(libhdl, symname).value)]
            && o.cache == if reply.Completed? && reply.value != 0 then cache[key := reply.value] else cache)
    ensures forall k :: k in cache ==> k in o.cache && o.cache[k] == cache[k]
    ensures CacheValid(cache) ==> CacheValid(o.cache)
  {
    match GetSymArgs(libhdl, symname)
    case Err(e) => SymOutcome(Err(e), cache, [])
    case Ok(args) =>
      var key := (libhdl, CString(symname));
      if key in cache then SymOutcome(Ok(cache[key]), cache, [])
      else
        var r := Completion(reply);
        var cache' := if r.Ok? && r.value != 0 then cache[key := r.value] else cache;
        SymOutcome(r, cache', [Call(findSym, args)])
  }

  /** After a successful lookup, the same lookup is answered from the cache, whatever the VE would say. */
  lemma GetSymIdempotent(cache: map<SymKey, u64>, findSym: u64, libhdl: u64, symname: string, first: Reply, second: Reply)
    requires GetSymSpec(cache, findSym, libhdl, symname, first).result.Ok?
    requires GetSymSpec(cache, findSym, libhdl, symname, first).result.value != 0
    ensures var o := GetSymSpec(cache, findSym, libhdl, symname, first);
      GetSymSpec(o.cache, findSym, libhdl, symname, second) == SymOutcome(o.result, o.cache, [])
  {
  }

  /** A zero address is not cached: the next lookup of that name asks the VE again. */
  lemma GetSymZeroRetried(cache: map<SymKey, u64>, findSym: u64, libhdl: u64, symname: string, first: Reply, second: Reply)
    requires CacheValid(cache)
    requires GetSymSpec(cache, findSym, libhdl, symname, first).result == Ok(0)
    ensures var o := GetSymSpec(cache, findSym, libhdl, symname, first);
      && o.cache == cache && o.calls != []
      && GetSymSpec(o.cache, findSym, libhdl, symname, second).calls != []
  {
  }

  // ----- openContext placement -----

  /**
   * The CPU both openContext overloads request: -1 (any CPU) while
   * tid_counter is at most 7, otherwise num_child_threads % 8 with C's
   * truncating remainder.
   */
  function PlacementCpu(tidCounter: int, numChildThreads: int): (cpu: int)
    ensures tidCounter <= MaxCpuNum - 1 ==> cpu == -1
    ensures tidCounter > MaxCpuNum - 1 && numChildThreads >= 0 ==> 0 <= cpu < MaxCpuNum && cpu == numChildThreads % MaxCpuNum
    ensures -MaxCpuNum < cpu < MaxCpuNum
  {
    if tidCounter > MaxCpuNum - 1 then CRem(numChildThreads, MaxCpuNum) else -1
  }

  /** Beyond the first eight threads the CPU does not depend on tid_counter: every new context shares one CPU. */
  lemma PlacementFixed(t1: int, t2: int, numChildThreads: int)
    requires t1 > MaxCpuNum - 1 && t2 > MaxCpuNum - 1
    ensures PlacementCpu(t1, numChildThreads) == PlacementCpu(t2, numChildThreads)
  {
  }

  /** The arguments of create_thread: the CPU in register 0. */
  function OpenContextArgs(tidCounter: int, numChildThreads: int): (a: Args)
    ensures a.stack == [] && a.regs.Keys == {0}
    ensures a.regs[0] == PlacementCpu(tidCounter, numChildThreads)
    ensures -1 <= a.regs[0] < MaxCpuNum || numChildThreads < 0
  {
    Args(map[0 := PlacementCpu(tidCounter, numChildThreads)], [])
  }

  /** The arguments of create_thread_with_attr: the attribute record (CPU, stack size) as IN stack argument 0. */
  function OpenContextAttrArgs(tidCounter: int, numChildThreads: int, stackSize: u64): (a: Args)
    ensures a.regs == map[] && |a.stack| == 1 && a.stack[0].intent == In && a.stack[0].index == 0
    ensures a.stack[0].data.ThreadAttr? && a.stack[0].data.stackSize == stackSize
    ensures a.stack[0].data.cpu == PlacementCpu(tidCounter, numChildThreads)
  {
    Args(map[], [StackArg(In, 0, ThreadAttr(PlacementCpu(tidCounter, numChildThreads), stackSize))])
  }

  /** Both overloads place the new context on the same CPU. */
  lemma PlacementIdentical(tidCounter: int, numChildThreads: int, stackSize: u64)
    ensures OpenContextArgs(tidCounter, numChildThreads).regs[0]
         == OpenContextAttrArgs(tidCounter, numChildThreads, stackSize).stack[0].data.cpu
  {
  }

  // ----- exitProc -----

  /** The part of a handle exitProc reads and writes. */
  datatype Lifecycle = Lifecycle(mainState: ThreadState, osHandleOpen: bool, issued: seq<DeviceCall>)

  /** exitProc: nothing without an exit helper or once the main thread has exited; otherwise exit, then close. */
  function ExitProcSpec(exitFunc: u64, l: Lifecycle): (l': Lifecycle)
    ensures exitFunc == 0 || l.mainState == Exit ==> l' == l
    ensures exitFunc != 0 ==> l'.mainState == Exit
    ensures l.mainState != Exit && exitFunc != 0 ==>
      !l'.osHandleOpen && l'.issued == l.issued + [Call(exitFunc, NoArgs)]
  {
    if exitFunc == 0 || l.mainState == Exit then l
    else Lifecycle(Exit, false, l.issued + [Call(exitFunc, NoArgs)])
  }

  /** A second exitProc does nothing. */
  lemma ExitProcIdempotent(exitFunc: u64, l: Lifecycle)
    ensures ExitProcSpec(exitFunc, ExitProcSpec(exitFunc, l)) == ExitProcSpec(exitFunc, l)
  {
  }

  // ----- the handle -----

  class ProcHandle {
    var veNumber: int
    var funcs: HelperFunctions
    var mainState: ThreadState
    var numChildThreads: int
    var symName: map<SymKey, u64>
    var osHandleOpen: bool
    var issued: seq<DeviceCall>

    ghost predicate Valid()
      reads this
    {
      && WellFormed(funcs)
      && numChildThreads >= 0
      && CacheValid(symName)
      && (osHandleOpen <==> mainState != Exit)
    }

    /** The state at the end of a successful construction, after the create_thread request for the worker. */
    constructor (veNumber: int, funcs: HelperFunctions, numChildThreads: nat)
      requires WellFormed(funcs)
      ensures Valid()
      ensures this.veNumber == veNumber && this.funcs == funcs && this.numChildThreads == numChildThreads
      ensures mainState == Running && osHandleOpen && symName == map[]
      ensures issued == [Call(funcs.createThread, Args(map[0 := -1], []))]
    {
      this.veNumber := veNumber;
      this.funcs := funcs;
      this.numChildThreads := numChildThreads;
      mainState := Running;
      osHandleOpen := true;
      symName := map[];
      issued := [Call(funcs.createThread, Args(map[0 := -1], []))];
    }

    function VeorunVersion(): int
      reads this
    {
      funcs.version
    }

    /** doOnContext: issue one helper call on the worker and wait for its completion. */
    method DoOnContext(func: u64, args: Args, reply: Reply) returns (r: Result<u64>)
      modifies this`issued
      ensures issued == old(issued) + [Call(func, args)]
      ensures r == Completion(reply)
      ensures reply.Completed? ==> r == Ok(reply.value)
      ensures reply.Failed? ==> r == Err(RequestFailed)
    {
      issued := issued + [Call(func, args)];
      r := Completion(reply);
    }

    /** loadLibraryError: fetch the VE's dlerror() text and copy at most `size` characters of it into retBuff. */
    method LoadLibraryError(retBuff: array<char>, size: nat, dev: ErrDevice) returns (r: Result<int>)
      requires |dev.message| == ErrMsgLen && Min(size, ErrMsgLen) <= retBuff.Length
      modifies this`issued, retBuff
      ensures r == LoadLibraryErrorSpec(funcs, dev).result
      ensures issued == old(issued) + LoadLibraryErrorSpec(funcs, dev).calls
      ensures var n := Min(size, ErrMsgLen);
        if r == Ok(0) then retBuff[..n] == dev.message[..n] && retBuff[n..] == old(retBuff[n..])
        else retBuff[..] == old(retBuff[..])
    {
      ghost var spec := LoadLibraryErrorSpec(funcs, dev);
      ghost var start := issued;
      var alloc := DoOnContext(funcs.allocBuff, Args(map[0 := ErrMsgLen], []), dev.alloc);
      if alloc.Err? {
        return Ok(-1);
      }
      var buff := alloc.value;
      if buff == 0 {
        return Ok(-1);
      }
      var loadErr := DoOnContext(funcs.loadLibraryErr, Args(map[0 := buff as int, 1 := ErrMsgLen], []), dev.loadErr);
      var rv: int;
      if loadErr.Ok? {
        rv := SignedOf(loadErr.value);
      } else {
        rv := -1;
      }
      if rv < 0 {
        return Ok(-1);
      }
      issued := issued + [ReadMem(buff, ErrMsgLen)];
      if dev.read.Failed? {
        return Err(AssertionAbort);
      }
      var errMsg := new char[ErrMsgLen](_ => '\0');
      forall i | 0 <= i < ErrMsgLen {
        errMsg[i] := dev.message[i];
      }
      if Int32Of(dev.read.value) != 0 {
        return Ok(-1);
      }
      var free := DoOnContext(funcs.freeBuff, Args(map[0 := buff as int], []), dev.free);
      if free.Err? {
        return Err(free.error);
      }
      var n := Min(size, ErrMsgLen);
      forall i | 0 <= i < n {
        retBuff[i] := errMsg[i];
      }
      assert issued == start + spec.calls;
      return Ok(0);
    }

    /** The diagnostic step of loadLibrary: fetch the error text into a local ERR_MSG_LEN buffer. */
    method ReportLoadError(dev: ErrDevice) returns (r: Result<int>)
      requires |dev.message| == ErrMsgLen
      modifies this`issued
      ensures r == LoadLibraryErrorSpec(funcs, dev).result
      ensures issued == old(issued) + LoadLibraryErrorSpec(funcs, dev).calls
    {
      var errMsg := new char[ErrMsgLen](_ => '\0');
      r := LoadLibraryError(errMsg, ErrMsgLen, dev);
    }

    /** loadLibrary: load a VE library; on a zero handle from a version-4 runtime, fetch the reason. */
    method LoadLibrary(libname: string, reply: Reply, dev: ErrDevice) returns (r: Result<u64>)
      requires |dev.message| == ErrMsgLen
      modifies this`issued
      ensures r == LoadLibrarySpec(funcs, libname, reply, dev).result
      ensures issued == old(issued) + LoadLibrarySpec(funcs, libname, reply, dev).calls
    {
      ghost var o := LoadLibrarySpec(funcs, libname, reply, dev);
      var args := LoadLibraryArgs(libname);
      if args.Err? {
        return Err(args.error);
      }
      ghost var call := Call(funcs.loadLibrary, args.value);
      var handle := DoOnContext(funcs.loadLibrary, args.value, reply);
      if handle.Err? {
        assert o == Outcome(handle, [call]);
        return handle;
      }
      if handle.value == 0 && VeorunVersion() >= VeorunVersion4 {
        ghost var d := LoadLibraryErrorSpec(funcs, dev);
        assert o.calls == [call] + d.calls;
        var diag := ReportLoadError(dev);
        if diag.Err? {
          return Err(diag.error);
        }
        assert o.result == handle;
      } else {
        assert o == Outcome(handle, [call]);
      }
      return handle;
    }

    /** getSym: find a symbol, answering repeated lookups from the cache. */
    method GetSym(libhdl: u64, symname: string, reply: Reply) returns (r: Result<u64>)
      requires Valid()
      modifies this`symName, this`issued
      ensures Valid()
      ensures var o := GetSymSpec(old(symName), funcs.findSym, libhdl, symname, reply);
        r == o.result && symName == o.cache && issued == old(issued) + o.calls
    {
      var args := GetSymArgs(libhdl, symname);
      if args.Err? {
        return Err(args.error);
      }
      var key := (libhdl, CString(symname));
      if key in symName {
        return Ok(symName[key]);
      }
      r := DoOnContext(funcs.findSym, args.value, reply);
      if r.Err? || r.value == 0 {
        return;
      }
      symName := symName[key := r.value];
    }

    /** openContext(): create a VE thread context, placed by PlacementCpu. */
    method OpenContext(tidCounter: int, reply: Reply) returns (r: Result<u64>)
      modifies this`issued
      ensures issued == old(issued) + [Call(funcs.createThread, OpenContextArgs(tidCounter, numChildThreads))]
      ensures r == Completion(reply)
    {
      var cpu := PlacementCpu(tidCounter, numChildThreads);
      r := DoOnContext(funcs.createThread, Args(map[0 := cpu], []), reply);
    }

    /** openContext(attr): the same placement, passed with the stack size in the attribute record. */
    method OpenContextWithAttr(tidCounter: int, stackSize: u64, reply: Reply) returns (r: Result<u64>)
      modifies this`issued
      ensures issued == old(issued) + [Call(funcs.createThreadWithAttr, OpenContextAttrArgs(tidCounter, numChildThreads, stackSize))]
      ensures r == Completion(reply)
    {
      var cpu := PlacementCpu(tidCounter, numChildThreads);
      var args := Args(map[], [StackArg(In, 0, ThreadAttr(cpu, stackSize))]);
      r := DoOnContext(funcs.createThreadWithAttr, args, reply);
    }

    /** exitProc: terminate the VE process once. */
    method ExitProc()
      requires Valid()
      modifies this`mainState, this`osHandleOpen, this`issued
      ensures Valid()
      ensures Lifecycle(mainState, osHandleOpen, issued)
           == ExitProcSpec(funcs.exit, old(Lifecycle(mainState, osHandleOpen, issued)))
    {
      if funcs.exit == 0 || mainState == Exit {
        return;
      }
      issued := issued + [Call(funcs.exit, NoArgs)];
      mainState := Exit;
      osHandleOpen := false;
    }
  }

  // ----- construction and the one-process guard -----

  /** The global count of VE processes created by this host process. */
  class SpawnCounter {
    var procNo: nat

    constructor ()
      ensures procNo == 0
    {
      procNo := 0;
    }
  }

  /** The two VEOExceptions spawn_helper throws itself. */
  datatype SpawnFault = PtraceAlloc | TempFile

  function FaultError(f: SpawnFault): (e: VeoError)
    ensures e in {PtraceAllocFailed, TempFileFailed}
    ensures f == PtraceAlloc <==> e == PtraceAllocFailed
  {
    match f
    case PtraceAlloc => PtraceAllocFailed
    case TempFile => TempFileFailed
  }

  /** How spawn_helper ends: it returns a status, or it throws. */
  datatype Spawn =
    | Returned(status: int)
    | Threw(fault: SpawnFault)

  /** What the environment answers during construction. */
  datatype Boot = Boot(
    handleCreated: bool,   // veos_handle_create returned a handle
    spawn: Spawn,          // how spawn_helper ends
    tableMem: seq<u64>,    // the VE words readable at the helper-function table
    cloneRequested: bool,  // the block after create_thread is a clone() request
    tidCounter: nat)       // tid_counter once the worker exists

  datatype Booted = Booted(veNumber: int, funcs: HelperFunctions, numChildThreads: nat)

  /**
   * The result, the process count left behind, and whether the constructor
   * itself released the OS handle with veos_handle_free.
   */
  datatype BootOutcome = BootOutcome(result: Result<Booted>, procNo: nat, handleFreed: bool)

  /** The constructor's steps, in order, and the process count they leave behind. */
  function BootSpec(procNo: nat, vedev: string, boot: Boot): (o: BootOutcome)
    ensures o.result.Ok? <==>
      procNo == 0 && boot.handleCreated && boot.spawn == Returned(0) && LoadTable(boot.tableMem).Ok? && boot.cloneRequested
    ensures o.result.Ok? ==> o.result.value == Booted(SocketName.VeNumber(vedev), LoadTable(boot.tableMem).value, boot.tidCounter)
    ensures o.procNo == if procNo == 0 && boot.handleCreated && boot.spawn == Returned(0) then 1 else procNo
    ensures procNo != 0 ==> o.result.Err? && o.result.error in {HandleCreateFailed, CreationFailed}
    // the exception each later step throws
    ensures !boot.handleCreated ==> o.result == Err(HandleCreateFailed)
    ensures procNo == 0 && boot.handleCreated && boot.spawn == Returned(0) && LoadTable(boot.tableMem).Err? ==>
      o.result == Err(LoadTable(boot.tableMem).error)
    ensures procNo == 0 && boot.handleCreated && boot.spawn == Returned(0) && LoadTable(boot.tableMem).Ok? && !boot.cloneRequested ==>
      o.result == Err(UnexpectedBlock)
    ensures procNo == 0 && boot.handleCreated && boot.spawn.Threw? ==>
      o.result == Err(FaultError(boot.spawn.fault)) && !o.handleFreed
    ensures o.handleFreed <==> o.result == Err(CreationFailed)
    ensures o.result == Err(CreationFailed) <==>
      boot.handleCreated && (procNo != 0 || (boot.spawn.Returned? && boot.spawn.status != 0))
  {
    var veNumber := SocketName.VeNumber(vedev);
    if !boot.handleCreated then BootOutcome(Err(HandleCreateFailed), procNo, false)
    else if procNo != 0 then BootOutcome(Err(CreationFailed), procNo, true)
    else
      match boot.spawn
      case Threw(f) => BootOutcome(Err(FaultError(f)), procNo, false)
      case Returned(status) =>
        if status != 0 then BootOutcome(Err(CreationFailed), procNo, true)
        else
          match LoadTable(boot.tableMem)
          case Err(e) => BootOutcome(Err(e), 1, false)
          case Ok(funcs) =>
            if !boot.cloneRequested then BootOutcome(Err(UnexpectedBlock), 1, false)
            else BootOutcome(Ok(Booted(veNumber, funcs, boot.tidCounter)), 1, false)
  }

  /** The ProcHandle constructor: at most one VE process per host process. */
  method CreateProcHandle(counter: SpawnCounter, vedev: string, boot: Boot)
    returns (r: Result<ProcHandle>, handleFreed: bool)
    modifies counter
    ensures var o := BootSpec(old(counter.procNo), vedev, boot);
      && counter.procNo == o.procNo
      && handleFreed == o.handleFreed
      && (r.Ok? <==> o.result.Ok?)
      && (r.Err? ==> r.error == o.result.error)
    ensures r.Ok? ==> var b := BootSpec(old(counter.procNo), vedev, boot).result.value;
      && fresh(r.value) && r.value.Valid()
      && r.value.veNumber == b.veNumber && r.value.funcs == b.funcs && r.value.numChildThreads == b.numChildThreads
      && r.value.mainState == Running && r.value.symName == map[]
  {
    handleFreed := false;
    var veNumber := SocketName.VeNumber(vedev);
    if !boot.handleCreated {
      return Err(HandleCreateFailed), false;
    }
    if counter.procNo != 0 {
      return Err(CreationFailed), true;
    }
    if boot.spawn.Threw? {
      return Err(FaultError(boot.spawn.fault)), false;
    }
    if boot.spawn.status != 0 {
      return Err(CreationFailed), true;
    }
    counter.procNo := counter.procNo + 1;
    var table := LoadTable(boot.tableMem);
    if table.Err? {
      return Err(table.error), false;
    }
    if !boot.cloneRequested {
      return Err(UnexpectedBlock), false;
    }
    var h := new ProcHandle(veNumber, table.value, boot.tidCounter);
    return Ok(h), false;
  }

  /** Successes over a run of construction attempts, and the final process count. */
  datatype Tally = Tally(successes: nat, procNo: nat)

  function BootAll(procNo: nat, vedev: string, boots: seq<Boot>): Tally
    decreases |boots|
  {
    if boots == [] then Tally(0, procNo)
    else
      var o := BootSpec(procNo, vedev, boots[0]);
      var rest := BootAll(o.procNo, vedev, boots[1..]);
      Tally(rest.successes + (if o.result.Ok? then 1 else 0), rest.procNo)
  }

  /** However many constructions are attempted, at most one succeeds and proc_no never exceeds 1. */
  lemma {:induction false} AtMostOneProcess(procNo: nat, vedev: string, boots: seq<Boot>)
    requires procNo <= 1
    ensures BootAll(procNo, vedev, boots).successes <= 1 - procNo
    ensures BootAll(procNo, vedev, boots).procNo <= 1
    ensures procNo == 1 ==> BootAll(procNo, vedev, boots).procNo == 1
    decreases |boots|
  {
    if boots != [] {
      var o := BootSpec(procNo, vedev, boots[0]);
      AtMostOneProcess(o.procNo, vedev, boots[1..]);
    }
  }

  /** An attempt that fails after the spawn still uses up the only slot: every later attempt fails. */
  lemma FailedBootBlocksLaterOnes(vedev: string, first: Boot, later: seq<Boot>)
    requires first.handleCreated && first.spawn == Returned(0)
    requires BootSpec(0, vedev, first).result.Err?
    ensures BootAll(0, vedev, [first] + later).successes == 0
  {
    assert ([first] + later)[1..] == later;
    AtMostOneProcess(1, vedev, later);
  }
}
