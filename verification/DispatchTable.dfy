/**
 * The helper-function (dispatch) table the VE runtime reports at its first
 * block: a versioned record of device entry points read in two steps, first
 * one word to learn the version, then the whole table sized by that version.
 * Device memory at the table's address is a sequence of 64-bit words; the
 * `int version` occupies the low half of the first word.
 */
module DispatchTable {
  import opened Common

  const VeorunVersion2: int := 2
  const VeorunVersion3: int := 3
  const VeorunVersion4: int := 4

  /** Bytes of one table slot: the version slot and each entry address. */
  const SlotBytes: nat := 8

  /**
   * The canonical record of the table. Entries a version's table does not
   * have (create_thread_with_attr before version 3, load_library_err before
   * version 4) are 0.
   */
  datatype HelperFunctions = HelperFunctions(
    version: int,
    loadLibrary: u64,
    allocBuff: u64,
    freeBuff: u64,
    findSym: u64,
    createThread: u64,
    callFunc: u64,
    exit: u64,
    createThreadWithAttr: u64,
    loadLibraryErr: u64)

  /**
   * The version-to-size decode of the constructor: versions 2, 3 and 4 select
   * their table sizes, a version below 2 fails the VEO_ASSERT, and any other
   * version is rejected as invalid.
   */
  function TableSize(version: int): (r: Result<nat>)
    ensures r.Ok? <==> version in {VeorunVersion2, VeorunVersion3, VeorunVersion4}
    ensures version < VeorunVersion2 ==> r == Err(AssertionAbort)
    ensures version > VeorunVersion4 ==> r == Err(InvalidVersion)
    ensures r.Ok? ==> r.value % SlotBytes == 0 && 8 * SlotBytes <= r.value <= 10 * SlotBytes
  {
    if version < VeorunVersion2 then Err(AssertionAbort)
    else if version == VeorunVersion2 then Ok(8 * SlotBytes)
    else if version == VeorunVersion3 then Ok(9 * SlotBytes)
    else if version == VeorunVersion4 then Ok(10 * SlotBytes)
    else Err(InvalidVersion)
  }

  /** Each newer version's table strictly extends the previous one. */
  lemma TableSizeGrows(v: int, w: int)
    requires TableSize(v).Ok? && TableSize(w).Ok? && v < w
    ensures TableSize(v).value < TableSize(w).value
  {
  }

  /** A record that some version's table can hold exactly. */
  predicate WellFormed(h: HelperFunctions)
  {
    && h.version in {VeorunVersion2, VeorunVersion3, VeorunVersion4}
    && (h.version < VeorunVersion3 ==> h.createThreadWithAttr == 0)
    && (h.version < VeorunVersion4 ==> h.loadLibraryErr == 0)
  }

  /** The words the VE runtime lays out for a record (the partner of the decode). */
  function EncodeTable(h: HelperFunctions): (mem: seq<u64>)
    requires WellFormed(h)
    ensures |mem| * SlotBytes == TableSize(h.version).value
    ensures Int32Of(mem[0]) == h.version
  {
    [h.version as u64, h.loadLibrary, h.allocBuff, h.freeBuff, h.findSym, h.createThread, h.callFunc, h.exit]
    + (if h.version >= VeorunVersion3 then [h.createThreadWithAttr] else [])
    + (if h.version >= VeorunVersion4 then [h.loadLibraryErr] else [])
  }

  /**
   * The constructor's two ve_recv_data reads and the decode between them.
   * A read of n bytes fails when fewer than n bytes are readable.
   */
  function LoadTable(mem: seq<u64>): (r: Result<HelperFunctions>)
    ensures |mem| == 0 ==> r == Err(RecvFailed)
    ensures |mem| > 0 && TableSize(Int32Of(mem[0])).Err? ==> r == Err(TableSize(Int32Of(mem[0])).error)
    ensures |mem| > 0 && TableSize(Int32Of(mem[0])).Ok? ==>
      (r.Ok? <==> TableSize(Int32Of(mem[0])).value <= |mem| * SlotBytes)
    ensures |mem| > 0 && TableSize(Int32Of(mem[0])).Ok? && r.Err? ==> r == Err(RecvFailed)
    ensures r.Ok? ==> WellFormed(r.value)
    ensures r.Ok? ==> r.value.version == Int32Of(mem[0])
    ensures r.Ok? ==> var n := |EncodeTable(r.value)|; n <= |mem| && EncodeTable(r.value)[1..] == mem[1..n]
  {
    if |mem| * SlotBytes < SlotBytes then Err(RecvFailed)
    else
      var version := Int32Of(mem[0]);
      match TableSize(version)
      case Err(e) => Err(e)
      case Ok(size) =>
        if |mem| * SlotBytes < size then Err(RecvFailed)
        else
          Ok(HelperFunctions(
            version, mem[1], mem[2], mem[3], mem[4], mem[5], mem[6], mem[7],
            if version >= VeorunVersion3 then mem[8] else 0,
            if version >= VeorunVersion4 then mem[9] else 0))
  }

  /** Round trip: decoding a table the runtime laid out recovers the record. */
  lemma LoadTableRoundTrip(h: HelperFunctions)
    requires WellFormed(h)
    ensures LoadTable(EncodeTable(h)) == Ok(h)
  {
  }
}
