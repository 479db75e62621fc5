# ProcHandle: a Dafny model of the VE offload process handle

The VE offload library (`libveo`) runs a helper program on a Vector Engine
(VE) card and drives it from the host. A `ProcHandle` stands for one VE
process. It creates that process, reads the table of helper entry points
the VE runtime reports, and then loads libraries, resolves symbols (with
a cache), opens thread contexts and finally terminates the process.

This project models the logic of `src/libveo/ProcHandle.cpp` and proves
properties of it:

- `Common.dfy`: 64-bit words, the `VeoError` kinds the code throws, and
  C integer arithmetic. This covers C's truncating `%`, reading an `int`
  from the low half of a word, and `int64_t`/`uint64_t` conversions.
- `SocketName.dfy`: `get_ve_node_num`, the node number read from the VEOS
  socket name. It is an imperative scan proved against a pure
  specification. The file also holds the `sscanf("/dev/veslot%d")`
  decode of the VE number.
- `EnvAuxv.dfy`: the environment / auxiliary-vector array built by
  `spawn_helper`. It counts the environment, allocates `env_num` slots
  and fills them in place through `env_index`.
- `DispatchTable.dfy`: the helper-function table. It covers the version
  decode (VEORUN_VERSION 2/3/4 to table size) and the two reads of the
  table.
- `CallArgs.dfy`: the `VEO_SYMNAME_LEN_MAX` name guard, and the IN stack
  argument that carries a name with its terminating NUL.
- `ProcHandle.dfy`:
  - the `ProcHandle` class, with its symbol cache `symName`, its
    main-thread state and a log `issued` of the requests it sends to
    the VE;
  - the constructor's steps and the global `proc_no` guard;
  - `loadLibrary`, `loadLibraryError`, `getSym`, both `openContext`
    overloads and `exitProc`.

Every round trip to the VE is an oracle parameter of type `Reply`: what
the worker reports when the host waits for the request. Each method is
proved against a pure specification function of that reply. The function
gives the result and the requests issued, so "the VE is not asked" means
"`issued` is unchanged".

`openContext` does not pin contexts round-robin. Once `tid_counter > 7`,
every context gets `num_child_threads % 8` (lines 744-745 and 780-781).
In this file, `num_child_threads` is set only at line 556, in the
constructor, so all such contexts share one CPU; see
`ProcHandles.PlacementFixed`.

Each Dafny `char` in a name or a device path stands for one C `char`
(one byte). A string's length is therefore its `strlen`, and the 255-byte
bound and the `isdigit` test mean the same as in the source.

## Model

| member | source | states |
|---|---|---|
| SocketName.GetVeNodeNum | src/libveo/ProcHandle.cpp:51-64 | the returned n is NodeNum(s): the decimal value of the digits met before the first '.', with every other character skipped |
| SocketName.NodeNumOfSocketName | src/libveo/ProcHandle.cpp:51-64 | round trip: a name made of a prefix with no digit and no '.', then the decimal numeral of n, then '.' and anything, yields n |
| SocketName.NodeNumStopsAtDot | src/libveo/ProcHandle.cpp:51-64 | characters after the first '.' never change the node number |
| SocketName.NodeNumSkipsOther | src/libveo/ProcHandle.cpp:51-64 | inserting a character that is neither a digit nor '.' leaves the node number unchanged |
| SocketName.NodeNumNoDigits | src/libveo/ProcHandle.cpp:51-64 | a name without digits gives node 0 |
| SocketName.VeNumber | src/libveo/ProcHandle.cpp:462-466 | the `%d` value after "/dev/veslot" when sscanf matches one item, and -1 when it matches none |
| SocketName.VeNumberRoundTrip | src/libveo/ProcHandle.cpp:462-466 | "/dev/veslot" followed by the numeral of n gives VE number n |
| SocketName.VeNumberNegative | src/libveo/ProcHandle.cpp:462-466 | "/dev/veslot-" followed by the numeral of n gives -n, as `%d` accepts a sign |
| SocketName.VeNumberWithoutNumber | src/libveo/ProcHandle.cpp:462-466 | when no conversion can start after the prefix, sscanf matches nothing and the VE number is -1 |
| EnvAuxv.CountEnv | src/libveo/ProcHandle.cpp:347-350 | the count is the number of environment entries before the NULL terminator |
| EnvAuxv.CopyEnv | src/libveo/ProcHandle.cpp:355-358 | the first env_index slots of env_array are exactly the environment entries |
| EnvAuxv.PutNull | src/libveo/ProcHandle.cpp:359 | one NULL slot is appended after the slots already written |
| EnvAuxv.PutPair | src/libveo/ProcHandle.cpp:384-385 | the type and then the value are appended after the slots already written |
| EnvAuxv.CopyAuxv | src/libveo/ProcHandle.cpp:360-391 | the slots written after the start are exactly the (type, value) pairs of types 1..31 that are listed and have a non-zero value, and earlier slots are kept |
| EnvAuxv.BuildEnvArray | src/libveo/ProcHandle.cpp:346-392 | the array has env_num = entries + 64 slots, and its filled prefix is entries, NULL, auxv pairs, NULL, within capacity |
| EnvAuxv.FillEnvArray | src/libveo/ProcHandle.cpp:355-392 | given env_num slots, the filled prefix is entries, NULL, auxv pairs, NULL |
| EnvAuxv.AuxvPairsSound | src/libveo/ProcHandle.cpp:360-391 | every pair written is a listed type in range together with its own non-zero auxv value |
| EnvAuxv.AuxvPairsIncreasing | src/libveo/ProcHandle.cpp:360-391 | pair types strictly increase, so no type is written twice |
| EnvAuxv.AuxvPairsComplete | src/libveo/ProcHandle.cpp:360-391 | every listed type below 32 whose auxv value is non-zero has its pair in the array |
| EnvAuxv.PageSizePlaced | src/libveo/ProcHandle.cpp:360-391 | with the switch's list of types, a non-zero AT_PAGESZ is placed on the VE stack as a (type, value) pair |
| EnvAuxv.UnlistedNotPlaced | src/libveo/ProcHandle.cpp:360-391 | with the switch's list of types, AT_IGNORE (1), which falls to `default`, is never placed |
| EnvAuxv.EnvImageFits | src/libveo/ProcHandle.cpp:351-392 | the final env_index never exceeds env_num |
| DispatchTable.TableSize | src/libveo/ProcHandle.cpp:502-511 | versions 2, 3 and 4 select their table sizes; a version below 2 fails the assertion; any other version is "Invalid VEORUN_VERSION" |
| DispatchTable.TableSizeGrows | src/libveo/ProcHandle.cpp:502-511 | a newer version's table is strictly larger |
| DispatchTable.EncodeTable | src/libveo/ProcHandle.cpp:502-531 | a record lays out as exactly its version's table size, with the version in the first slot |
| DispatchTable.LoadTable | src/libveo/ProcHandle.cpp:496-514 | no readable word fails the receive; a bad version fails as TableSize says; a known version succeeds iff its whole table is readable; the record read back matches the words; a known version whose table is not fully readable is "Failed to receive data from VE" |
| DispatchTable.LoadTableRoundTrip | src/libveo/ProcHandle.cpp:496-514 | decoding the words of any well-formed record gives that record |
| CallArgs.StrLen | src/libveo/ProcHandle.cpp:592 | strlen: the position of the first NUL, or the whole length |
| CallArgs.NameBlob | src/libveo/ProcHandle.cpp:597 | the IN blob has len + 1 characters: the name, then the terminating NUL |
| CallArgs.CheckName | src/libveo/ProcHandle.cpp:592-595 | a name is refused with "Too long name" iff its length exceeds VEO_SYMNAME_LEN_MAX |
| CallArgs.LoadLibraryArgs | src/libveo/ProcHandle.cpp:592-597 | either the name guard fails, or there is no register argument and the name blob is IN stack argument 0 |
| CallArgs.GetSymArgs | src/libveo/ProcHandle.cpp:619-625 | either the name guard fails, or the handle is in register 0 and the name blob is IN stack argument 1 |
| CallArgs.NameBlobRoundTrip | src/libveo/ProcHandle.cpp:597 | the VE reading the blob as a C string recovers exactly the caller's name |
| CallArgs.NameLengthBoundary | src/libveo/ProcHandle.cpp:592-595 | a 255-character name is accepted, and the same name with one more character is refused |
| ProcHandles.PlacementCpu | src/libveo/ProcHandle.cpp:741-750 | -1 (any CPU) while tid_counter is at most 7; otherwise num_child_threads % 8 with C's truncating remainder, so in [0, 7] for a non-negative count |
| ProcHandles.PlacementFixed | src/libveo/ProcHandle.cpp:741-750 | past the eighth thread the CPU no longer depends on tid_counter |
| ProcHandles.OpenContextArgs | src/libveo/ProcHandle.cpp:741-752 | create_thread gets PlacementCpu(tid_counter, num_child_threads), in [-1, 7], as its only argument |
| ProcHandles.OpenContextAttrArgs | src/libveo/ProcHandle.cpp:777-791 | create_thread_with_attr gets one IN attribute record carrying PlacementCpu(tid_counter, num_child_threads) and the requested stack size |
| ProcHandles.PlacementIdentical | src/libveo/ProcHandle.cpp:741-784 | both overloads place a context on the same CPU |
| ProcHandles.ProcHandle.OpenContext | src/libveo/ProcHandle.cpp:735-759 | exactly one create_thread request with that placement; the context on VEO_COMMAND_OK, otherwise "request failed" |
| ProcHandles.ProcHandle.OpenContextWithAttr | src/libveo/ProcHandle.cpp:769-799 | exactly one create_thread_with_attr request with that record; the context on VEO_COMMAND_OK, otherwise "request failed" |
| ProcHandles.Completion | src/libveo/ProcHandle.cpp:561-572 | a request's value when the worker reports VEO_COMMAND_OK, otherwise "request failed" |
| ProcHandles.ProcHandle.DoOnContext | src/libveo/ProcHandle.cpp:561-572 | exactly one request is logged; its value on VEO_COMMAND_OK, otherwise "request failed" |
| ProcHandles.LoadLibraryErrorWith | src/libveo/ProcHandle.cpp:843-886 | success (0) iff the buffer is allocated non-zero, rv >= 0, readMem returns 0 and freeBuff completes; a failed readMem aborts the assertion; a failed freeBuff propagates "request failed"; every other path returns -1; the requests are allocBuff, load_library_err(buff, ERR_MSG_LEN), readMem(buff) and freeBuff(buff), cut off at the first step that ends the call |
| ProcHandles.LoadLibraryErrorAsWritten | src/libveo/ProcHandle.cpp:860-871 | with a completed load_library_err call it agrees with the corrected definition |
| ProcHandles.LoadLibraryErrorAsWrittenMisreports | src/libveo/ProcHandle.cpp:860-871 | a failed load_library_err request followed by readMem and freeBuff succeeding is reported as success when the uninitialised rv is 0 |
| ProcHandles.LoadLibraryErrorSpec | src/libveo/ProcHandle.cpp:843-886 | success iff every request completes, load_library_err's value is non-negative and readMem returns 0; a failed load_library_err gives -1 after two requests |
| ProcHandles.ProcHandle.LoadLibraryError | src/libveo/ProcHandle.cpp:843-886 | returns and issues what LoadLibraryErrorSpec says; on success the first min(size, ERR_MSG_LEN) characters of ret_buff are the VE's message and the rest are untouched; on failure ret_buff is untouched |
| ProcHandles.ProcHandle.ReportLoadError | src/libveo/ProcHandle.cpp:602-605 | the error text is fetched into a local ERR_MSG_LEN buffer, with the result and requests of LoadLibraryErrorSpec |
| ProcHandles.LoadLibrarySpec | src/libveo/ProcHandle.cpp:589-607 | "Too long name" iff the guard fails, and then no request; otherwise load_library first, and a failed request is "request failed"; a non-zero handle is returned after exactly one request; a zero handle is returned as 0 before version 4; from version 4 on it is followed by exactly the requests of LoadLibraryErrorSpec, whose exception propagates |
| ProcHandles.ProcHandle.LoadLibrary | src/libveo/ProcHandle.cpp:589-607 | returns and issues exactly what LoadLibrarySpec says |
| ProcHandles.GetSymSpec | src/libveo/ProcHandle.cpp:617-646 | guard failure: nothing changes; cached: the cached address, no request, cache unchanged; miss: one find_sym request, and only a non-zero answer is inserted; the cache only grows and keeps its invariant |
| ProcHandles.GetSymIdempotent | src/libveo/ProcHandle.cpp:626-646 | after a non-zero lookup, the same lookup returns the same address without asking the VE, whatever it would answer |
| ProcHandles.GetSymZeroRetried | src/libveo/ProcHandle.cpp:640-642 | a zero answer is not cached, so the next lookup asks the VE again |
| ProcHandles.ProcHandle.GetSym | src/libveo/ProcHandle.cpp:617-646 | result, new cache and requests are those of GetSymSpec, and the cache invariant is kept |
| ProcHandles.ExitProcSpec | src/libveo/ProcHandle.cpp:679-727 | with no exit helper, or once the main thread has exited, nothing changes; otherwise one exit request, the state becomes EXIT and the OS handle is closed |
| ProcHandles.ExitProcIdempotent | src/libveo/ProcHandle.cpp:688-689 | a second exitProc changes nothing |
| ProcHandles.ProcHandle.ExitProc | src/libveo/ProcHandle.cpp:679-727 | the new state and log are those of ExitProcSpec, and the handle stays valid |
| ProcHandles.ProcHandle.constructor | src/libveo/ProcHandle.cpp:488-535 | a constructed handle is RUNNING with an empty symbol cache and has issued only the worker's create_thread(-1) |
| ProcHandles.BootSpec | src/libveo/ProcHandle.cpp:438-558 | construction succeeds iff proc_no is 0, the handle is created, spawn_helper returns 0, the table loads and a clone follows; proc_no becomes 1 exactly when spawn_helper returns 0 from 0, even if a later step fails; an exception thrown by spawn_helper propagates with proc_no unchanged; the constructor frees the OS handle iff it fails with "The creation of a VE process failed."; a failed veos_handle_create is "veos_handle_create failed.", a failed table load gives LoadTable's error, and a missing clone request is "VE process requests block unexpectedly." |
| ProcHandles.CreateProcHandle | src/libveo/ProcHandle.cpp:438-558 | the result, the new proc_no and whether veos_handle_free is called are those of BootSpec; a new handle is fresh, valid, RUNNING, with an empty cache |
| ProcHandles.AtMostOneProcess | src/libveo/ProcHandle.cpp:478-487 | over any sequence of construction attempts, at most one succeeds and proc_no never exceeds 1 |
| ProcHandles.FailedBootBlocksLaterOnes | src/libveo/ProcHandle.cpp:478-487 | an attempt that fails after spawn_helper returns 0 leaves proc_no at 1, so every later attempt fails |

## Left out

- I/O and the operating system are not modelled. This covers shared memory, `mkstemp`, the VEOS socket, loading the binary, `init_stack`, signal masks and `process_thread_cleanup`. Their outcomes enter as `Boot` fields or are omitted.
- Concurrency is not modelled: `spawn_mtx`, `sym_mtx`, `main_mutex`, `tid_counter_mutex` and the request queues. Every operation is modelled as if it ran alone.
- The internals of `doOnContext`, `callAsync`, `_callOpenContext`, `callWaitResult` and the command queue are an oracle `Reply`. Thread contexts are returned as opaque 64-bit values.
- `allocBuff`, `freeBuff`, `readMem` and `writeMem` are thin wrappers. They appear only as requests inside `loadLibraryError`; `writeMem` does not appear at all.
- The body of the request pushed by `exitProc` is not modelled. It reads the uninitialised `status` on a failed exit. Its outcome is ignored by `exitProc` anyway, so the model has one exit request and the state change.
- The worker clone handling, `waitForBlock` and `_unBlock` in the constructor are reduced to whether a clone request arrives (`Boot.cloneRequested`).
- Header constants are taken as VEORUN_VERSION2/3/4 = 2/3/4, VEO_SYMNAME_LEN_MAX = 255 and ERR_MSG_LEN = 256.
- The helper table layout is taken as an 8-byte version slot followed by 8-byte entries, in the order the constructor logs them. That gives tables of 64, 72 and 80 bytes.
- Table entries missing from an older table are 0 in the model. The C struct keeps whatever it held.
- EnvAuxv.PlacedAuxvTypes: the value of AT_QUICKCALL_VADDR is not known here. The array builder is therefore proved for any set of listed types, and the constant holds only the Linux AT_* values.
- SocketName.GetVeNodeNum: `int` overflow of `10*n + digit` on very long digit runs is not modelled; the model's integer is unbounded.
- SocketName.VeNumber: `%d` overflow on very long numerals is not modelled; the model's integer is unbounded.
- ProcHandles.GetSymSpec: the cache key is taken to compare names by content, as a `std::string` key does. The key type is declared in a header that is not part of this model.
- The `tid_counter` global is a parameter of the openContext methods. Nothing in this file increments it.
- Logging (`VEO_DEBUG`, `VEO_TRACE`, `VEO_ERROR`) is not modelled.

## Findings

| source | as written | input that shows it | evidently intended | confidence | as-written member | corrected member |
|---|---|---|---|---|---|---|
| src/libveo/ProcHandle.cpp:846-871 | when `doOnContext` for load_library_err throws, the exception is caught and `rv`, never assigned, is then compared with `rv < 0` | alloc returns buffer 1; load_library_err fails; uninitialised rv happens to be 0; readMem returns 0; freeBuff completes. Result: 0 (success) | a failed load_library_err request returns -1 | not executed | ProcHandles.LoadLibraryErrorAsWrittenMisreports | ProcHandles.LoadLibraryErrorSpec |
