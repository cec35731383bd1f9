/**
 * The bootloader's firmware-update engine (A12G/Bootloader/src/BootMain.c).
 *
 * At every boot the engine mounts the SD card (reset on failure), probes two
 * marker files in the fixed order A then B, deletes the marker it finds and
 * flashes the matching binary: 360 rows of 256 bytes from APP_START_ADDRESS,
 * each row read from the file, erased, written as four 64-byte pages and
 * checked by comparing the CRC of the buffer with the CRC of the flashed row.
 * Control then passes to the application.
 *
 * The first half of this module gives the meaning of each step as functions
 * over the memory contents (a `seq<u8>` indexed by absolute address); the
 * class `Bootloader` below runs the same steps in place on an array, and each
 * of its methods is proved to agree with those functions.
 *
 * Hardware primitives whose outcome the source cannot control (NVM erase and
 * page write, the DSU CRC unit, FatFs reads) take their outcome from a fault
 * model `Hw`; the CRC itself is an uninterpreted function `crc`.
 */
module BootMain {
  import opened Machine

  // ---------------------------------------------------------------------------
  // Memory layout
  // ---------------------------------------------------------------------------

  const AppStartAddress: nat := 0x12000
  const AppStartResetVecAddress: nat := AppStartAddress + 4
  const NvmBytesPerRow: nat := 256
  /** NVMCTRL_PAGE_SIZE of the SAMD21: a row is four pages. */
  const NvmPageSize: nat := 64
  const PagesPerRow: nat := 4
  /** The fixed row count of the flashing loop; the file size is not consulted. */
  const RowsToFlash: nat := 360
  /** First address past the region the engine may touch. */
  const AppEndAddress: nat := AppStartAddress + RowsToFlash * NvmBytesPerRow
  /** Size of the modelled flash (256 KiB on the SAMD21G18). */
  const NvmSize: nat := 0x40000
  const ErasedByte: u8 := 0xFF

  function RowAddress(row: nat): (a: nat)
    ensures row < RowsToFlash ==> AppStartAddress <= a && a + NvmBytesPerRow <= AppEndAddress
  {
    0x12000 + 256 * row
  }

  function PageAddress(row: nat, page: nat): (a: nat)
    ensures page < PagesPerRow ==> RowAddress(row) <= a && a + NvmPageSize <= RowAddress(row) + NvmBytesPerRow
  {
    RowAddress(row) + 64 * page
  }

  // ---------------------------------------------------------------------------
  // Status codes, the fault model and the record of hardware calls
  // ---------------------------------------------------------------------------

  /** `enum status_code`: STATUS_OK, STATUS_ABORTED and any other code a primitive returns. */
  datatype Status = Ok | Aborted | Failed(code: nat)

  /**
   * What the hardware primitives answer. Absent keys mean success.
   * eraseStatus: nvm_erase_row, by row address; writeStatus: nvm_write_buffer,
   * by page address; crcBufferStatus / crcNvmStatus: the two dsu_crc32_cal
   * calls of perform_nvm_crc, by row number; readFails: rows whose f_read
   * returns an error; unlinkFails: files whose f_unlink fails (a write-protected
   * card, or a file still held open), which main does not check.
   */
  datatype Hw = Hw(
    eraseStatus: map<nat, Status>,
    writeStatus: map<nat, Status>,
    crcBufferStatus: map<nat, Status>,
    crcNvmStatus: map<nat, Status>,
    readFails: set<nat>,
    unlinkFails: set<string>)

  function StatusAt(m: map<nat, Status>, k: nat): Status {
    if k in m then m[k] else Ok
  }

  /** The hardware that never fails. */
  const Faultless: Hw := Hw(map[], map[], map[], map[], {}, {})

  /** One call of the engine into the outside world, in the order it is made. */
  datatype Call =
    | Probe(name: string)
    | Unlink(name: string)
    | Open(name: string)
    | ReadFile
    | Close
    | EraseRow(addr: nat)
    | WritePage(addr: nat)
    | FenceClear
    | CrcBuffer
    | FenceSet
    | CrcNvm(addr: nat)
    | Print(msg: string)
    | Deinit
    | Reset
    | Jump

  ghost predicate IsNvmCall(c: Call) {
    c.EraseRow? || c.WritePage?
  }

  function NvmTarget(c: Call): nat
    requires c.EraseRow? || c.WritePage?
  {
    c.addr
  }

  // ---------------------------------------------------------------------------
  // Memory effects of the primitives
  // ---------------------------------------------------------------------------

  predicate InRow(j: int, row: nat) {
    RowAddress(row) <= j < RowAddress(row) + NvmBytesPerRow
  }

  predicate RowErased(mem: seq<u8>, row: nat)
    requires row < RowsToFlash && |mem| == NvmSize
  {
    forall j | RowAddress(row) <= j < RowAddress(row) + NvmBytesPerRow :: mem[j] == ErasedByte
  }

  /** The row's bytes. */
  function RowOf(mem: seq<u8>, row: nat): (r: seq<u8>)
    requires row < RowsToFlash && |mem| == NvmSize
    ensures |r| == NvmBytesPerRow
  {
    mem[RowAddress(row)..RowAddress(row) + NvmBytesPerRow]
  }

  /** nvm_erase_row succeeding: every byte of the row reads 0xFF. */
  function EraseRowMem(mem: seq<u8>, row: nat): (r: seq<u8>)
    requires row < RowsToFlash && |mem| == NvmSize
    ensures |r| == NvmSize
  {
    seq(NvmSize, j requires 0 <= j < NvmSize => if InRow(j, row) then ErasedByte else mem[j])
  }

  // ---------------------------------------------------------------------------
  // erase_nvm, write_nvm, perform_nvm_crc and f_read as functions
  // ---------------------------------------------------------------------------

  /** The memory after a step, the status it returns and the calls it made. */
  datatype Step = Step(mem: seq<u8>, status: Status, calls: seq<Call>)

  /**
   * erase_nvm: the primitive's status, except that a failing erase whose row
   * does not read all 0xFF is reported as STATUS_ABORTED. A failed erase
   * leaves the flash as it was.
   */
  function EraseNvm(mem: seq<u8>, row: nat, hw: Hw): (r: Step)
    requires row < RowsToFlash && |mem| == NvmSize
    ensures |r.mem| == NvmSize && r.calls == [EraseRow(RowAddress(row))]
  {
    var primitive := StatusAt(hw.eraseStatus, RowAddress(row));
    if primitive == Ok then Step(EraseRowMem(mem, row), Ok, [EraseRow(RowAddress(row))])
    else Step(mem, if RowErased(mem, row) then primitive else Aborted, [EraseRow(RowAddress(row))])
  }

  /**
   * erase_nvm never turns a failed erase into success and never reports a
   * successful one as failed; a failure is reported either with the
   * primitive's own code (the row happens to read all 0xFF) or as
   * STATUS_ABORTED; and after a reported success the row reads all 0xFF.
   */
  lemma EraseNvmOutcome(mem: seq<u8>, row: nat, hw: Hw)
    requires row < RowsToFlash && |mem| == NvmSize
    ensures var r := EraseNvm(mem, row, hw);
      var primitive := StatusAt(hw.eraseStatus, RowAddress(row));
      (r.status == Ok <==> primitive == Ok) &&
      (r.status == Ok ==> RowErased(r.mem, row)) &&
      (r.status != Ok ==>
        r.mem == mem &&
        (RowErased(mem, row) ==> r.status == primitive) &&
        (!RowErased(mem, row) ==> r.status == Aborted))
  {
  }

  /** erase_nvm changes no byte outside its row. */
  lemma EraseNvmFrame(mem: seq<u8>, row: nat, hw: Hw)
    requires row < RowsToFlash && |mem| == NvmSize
    ensures forall j | 0 <= j < NvmSize && !InRow(j, row) :: EraseNvm(mem, row, hw).mem[j] == mem[j]
  {
  }

  predicate PageWriteOk(hw: Hw, row: nat, page: nat) {
    StatusAt(hw.writeStatus, PageAddress(row, page)) == Ok
  }

  /** The first page of the row, from `from` on, whose write fails; PagesPerRow when none does. */
  function FirstFailingPage(hw: Hw, row: nat, from: nat): (k: nat)
    requires from <= PagesPerRow
    ensures from <= k <= PagesPerRow
    ensures forall q | from <= q < k :: PageWriteOk(hw, row, q)
    ensures k < PagesPerRow ==> !PageWriteOk(hw, row, k)
    decreases PagesPerRow - from
  {
    if from == PagesPerRow || !PageWriteOk(hw, row, from) then from
    else FirstFailingPage(hw, row, from + 1)
  }

  /** The first k pages of the row programmed from the matching bytes of `buf`. */
  function ProgramPagesMem(mem: seq<u8>, row: nat, buf: seq<u8>, k: nat): (r: seq<u8>)
    requires row < RowsToFlash && k <= PagesPerRow && |mem| == NvmSize && |buf| == NvmBytesPerRow
    ensures |r| == NvmSize
  {
    seq(NvmSize, j requires 0 <= j < NvmSize =>
      if RowAddress(row) <= j < PageAddress(row, k) then And8(mem[j], buf[j - RowAddress(row)]) else mem[j])
  }

  /** The page writes write_nvm issues when page k is the first to fail (k == PagesPerRow: none fails). */
  function PageWrites(row: nat, k: nat): (cs: seq<Call>)
    requires k <= PagesPerRow
  {
    var n := if k == PagesPerRow then k else k + 1;
    seq(n, i requires 0 <= i < n => WritePage(PageAddress(row, i)))
  }

  /**
   * write_nvm: the pages before the first failing one are programmed, the
   * failing page's code is returned (STATUS_OK when none fails), and no page
   * after it is attempted.
   */
  function WriteNvm(mem: seq<u8>, row: nat, buf: seq<u8>, hw: Hw): (r: Step)
    requires row < RowsToFlash && |mem| == NvmSize && |buf| == NvmBytesPerRow
    ensures |r.mem| == NvmSize
  {
    var k := FirstFailingPage(hw, row, 0);
    Step(ProgramPagesMem(mem, row, buf, k),
         if k == PagesPerRow then Ok else StatusAt(hw.writeStatus, PageAddress(row, k)),
         PageWrites(row, k))
  }

  /**
   * write_nvm reports STATUS_OK exactly when all four page writes succeed,
   * changes no byte outside its row, and issues only page writes inside its
   * row; on an erased row whose writes all succeed the row ends up holding
   * exactly the buffer.
   */
  lemma WriteNvmOutcome(mem: seq<u8>, row: nat, buf: seq<u8>, hw: Hw)
    requires row < RowsToFlash && |mem| == NvmSize && |buf| == NvmBytesPerRow
    ensures var r := WriteNvm(mem, row, buf, hw);
      (r.status == Ok <==> forall q | 0 <= q < PagesPerRow :: PageWriteOk(hw, row, q)) &&
      (forall j | 0 <= j < NvmSize && !InRow(j, row) :: r.mem[j] == mem[j]) &&
      (forall c | c in r.calls :: c.WritePage? && InRow(c.addr, row)) &&
      (RowErased(mem, row) && r.status == Ok ==> RowOf(r.mem, row) == buf)
  {
    var r := WriteNvm(mem, row, buf, hw);
    var k := FirstFailingPage(hw, row, 0);
    forall c | c in r.calls ensures c.WritePage? && InRow(c.addr, row) {
      var i :| 0 <= i < |r.calls| && r.calls[i] == c;
      assert c == WritePage(PageAddress(row, i));
    }
    if RowErased(mem, row) && r.status == Ok {
      forall i | 0 <= i < NvmBytesPerRow ensures RowOf(r.mem, row)[i] == buf[i] {
        var j := RowAddress(row) + i;
        assert mem[j] == ErasedByte;
      }
    }
  }

  /** A failing write_nvm returns the code of its first failing page and issues no write after it. */
  lemma WriteNvmStopsAtFailure(mem: seq<u8>, row: nat, buf: seq<u8>, hw: Hw, k: nat)
    requires row < RowsToFlash && k < PagesPerRow && |mem| == NvmSize && |buf| == NvmBytesPerRow
    requires forall q | 0 <= q < k :: PageWriteOk(hw, row, q)
    requires !PageWriteOk(hw, row, k)
    ensures var r := WriteNvm(mem, row, buf, hw);
      r.status == StatusAt(hw.writeStatus, PageAddress(row, k)) && r.status != Ok &&
      r.calls == PageWrites(row, k) && |r.calls| == k + 1 &&
      forall j | PageAddress(row, k) <= j < NvmSize :: r.mem[j] == mem[j]
  {
  }

  /**
   * perform_nvm_crc: STATUS_OK iff the two CRC results are equal. The row's CRC
   * is taken only when the buffer's CRC call succeeded; a failing call leaves
   * its result at 0. The fence calls surround the buffer's CRC only.
   */
  function PerformNvmCrc(buf: seq<u8>, mem: seq<u8>, row: nat, hw: Hw, crc: seq<u8> -> u32): (r: Step)
    requires row < RowsToFlash && |mem| == NvmSize
    ensures r.mem == mem
  {
    var bufferOk := StatusAt(hw.crcBufferStatus, row) == Ok;
    var nvmOk := bufferOk && StatusAt(hw.crcNvmStatus, row) == Ok;
    var first: u32 := if bufferOk then crc(buf) else 0;
    var second: u32 := if nvmOk then crc(RowOf(mem, row)) else 0;
    Step(mem, if first == second then Ok else Aborted, CrcCalls(row, hw))
  }

  /** The fence around the buffer's CRC, then the row's CRC only when the buffer's succeeded. */
  function CrcCalls(row: nat, hw: Hw): seq<Call> {
    [FenceClear, CrcBuffer, FenceSet] + (if StatusAt(hw.crcBufferStatus, row) == Ok then [CrcNvm(RowAddress(row))] else [])
  }

  /**
   * What the check is worth: when both CRC calls succeed it passes exactly
   * when the CRCs agree, so a row equal to the buffer always passes; when
   * only the second call fails it passes exactly when the buffer's CRC is 0;
   * and when the first call fails both results stay 0 and it passes whatever
   * the row holds.
   */
  lemma PerformNvmCrcVerdict(buf: seq<u8>, mem: seq<u8>, row: nat, hw: Hw, crc: seq<u8> -> u32)
    requires row < RowsToFlash && |mem| == NvmSize
    ensures var r := PerformNvmCrc(buf, mem, row, hw, crc);
      var bufferOk := StatusAt(hw.crcBufferStatus, row) == Ok;
      var nvmOk := StatusAt(hw.crcNvmStatus, row) == Ok;
      (r.status == Ok || r.status == Aborted) &&
      (bufferOk && nvmOk ==> (r.status == Ok <==> crc(buf) == crc(RowOf(mem, row)))) &&
      (bufferOk && !nvmOk ==> (r.status == Ok <==> crc(buf) == 0)) &&
      (!bufferOk ==> r.status == Ok) &&
      (bufferOk && nvmOk && RowOf(mem, row) == buf ==> r.status == Ok)
  {
  }

  /**
   * The erratum work-around on the DSU register at 0x41007058: bits 16 and 17
   * are cleared before the CRC of a RAM buffer and bit 17 is set after it.
   */
  function ClearCrcFence(reg: bv32): bv32 {
    reg & !0x30000
  }

  function SetCrcFence(reg: bv32): bv32 {
    reg | 0x20000
  }

  /** During the CRC both bits are clear; after it bit 17 is set, bit 16 is clear and no other bit has moved. */
  lemma CrcFenceBits(reg: bv32)
    ensures ClearCrcFence(reg) & 0x30000 == 0
    ensures SetCrcFence(ClearCrcFence(reg)) & 0x30000 == 0x20000
    ensures SetCrcFence(ClearCrcFence(reg)) & !0x30000 == reg & !0x30000
  {
  }

  /** The open binary as f_read sees it: the row buffer and the read cursor. */
  datatype Reader = Reader(buffer: seq<u8>, cursor: nat)

  /**
   * f_read of up to 256 bytes into the buffer: the bytes left in the file from
   * the cursor, at most 256, overwrite the front of the buffer and the rest of
   * the buffer keeps what the previous row left there. A failing read leaves
   * buffer and cursor as they were.
   */
  function ReadRow(rd: Reader, image: seq<u8>, fails: bool): (r: Reader)
    requires rd.cursor <= |image| && |rd.buffer| == NvmBytesPerRow
    ensures |r.buffer| == NvmBytesPerRow && rd.cursor <= r.cursor <= |image|
    ensures fails ==> r == rd
    ensures !fails ==> r.cursor == rd.cursor + Min(NvmBytesPerRow, |image| - rd.cursor)
    ensures !fails ==> r.buffer[..r.cursor - rd.cursor] == image[rd.cursor..r.cursor]
    ensures r.buffer[r.cursor - rd.cursor..] == rd.buffer[r.cursor - rd.cursor..]
  {
    if fails then rd
    else
      var n := Min(NvmBytesPerRow, |image| - rd.cursor);
      Reader(image[rd.cursor..rd.cursor + n] + rd.buffer[n..], rd.cursor + n)
  }

  function Min(a: int, b: int): int {
    if a < b then a else b
  }

  // ---------------------------------------------------------------------------
  // flash_bin as functions
  // ---------------------------------------------------------------------------
  //
  // Each pass of flash_bin's loop reads a row into the buffer, erases the row,
  // writes it from the buffer and verifies it, and no status stops the loop.
  // The reads never depend on the flash and the calls depend only on the fault
  // model, so the loop is given by four recursions over the rows: the reader,
  // the flash, the calls, and the status of the last verify.

  /** The reader after the reads of rows 0 .. n-1. */
  function ReadRows(rd: Reader, n: nat, image: seq<u8>, fails: set<nat>): (r: Reader)
    requires rd.cursor <= |image| && |rd.buffer| == NvmBytesPerRow
    ensures |r.buffer| == NvmBytesPerRow && rd.cursor <= r.cursor <= |image|
  {
    if n == 0 then rd else ReadRow(ReadRows(rd, n - 1, image, fails), image, n - 1 in fails)
  }

  /** The buffer a row is written from: whatever its own read left there. */
  function RowBuffer(rd: Reader, row: nat, image: seq<u8>, fails: set<nat>): (buf: seq<u8>)
    requires rd.cursor <= |image| && |rd.buffer| == NvmBytesPerRow
    ensures |buf| == NvmBytesPerRow
  {
    ReadRows(rd, row + 1, image, fails).buffer
  }

  /**
   * One byte of a row, at offset i, after erase_nvm and then write_nvm from
   * `buf`: erased when the erase succeeds, then programmed when its page comes
   * before the first failing page write.
   */
  function PassByte(b: u8, row: nat, i: nat, buf: seq<u8>, hw: Hw): u8
    requires i < NvmBytesPerRow && |buf| == NvmBytesPerRow
  {
    var erased := if StatusAt(hw.eraseStatus, RowAddress(row)) == Ok then ErasedByte else b;
    if i < 64 * FirstFailingPage(hw, row, 0) then And8(erased, buf[i]) else erased
  }

  /** The flash after erase_nvm and write_nvm of one row from `buf`, byte by byte. */
  function PassMem(mem: seq<u8>, row: nat, buf: seq<u8>, hw: Hw): (r: seq<u8>)
    requires |mem| == NvmSize && |buf| == NvmBytesPerRow
    ensures |r| == NvmSize
  {
    seq(NvmSize, j requires 0 <= j < NvmSize =>
      if InRow(j, row) then PassByte(mem[j], row, j - RowAddress(row), buf, hw) else mem[j])
  }

  /** The byte-wise pass is exactly erase_nvm followed by write_nvm. */
  lemma PassIsEraseThenWrite(mem: seq<u8>, row: nat, buf: seq<u8>, hw: Hw)
    requires row < RowsToFlash && |mem| == NvmSize && |buf| == NvmBytesPerRow
    ensures PassMem(mem, row, buf, hw) == WriteNvm(EraseNvm(mem, row, hw).mem, row, buf, hw).mem
  {
    var erased := EraseNvm(mem, row, hw).mem;
    var written := WriteNvm(erased, row, buf, hw).mem;
    forall j | 0 <= j < NvmSize ensures PassMem(mem, row, buf, hw)[j] == written[j] {
      if InRow(j, row) {
        assert erased[j] == if StatusAt(hw.eraseStatus, RowAddress(row)) == Ok then ErasedByte else mem[j];
      } else {
        assert erased[j] == mem[j];
      }
    }
  }

  /** The flash after rows 0 .. n-1. */
  function MemRows(mem: seq<u8>, rd: Reader, n: nat, image: seq<u8>, hw: Hw): (r: seq<u8>)
    requires n <= RowsToFlash && |mem| == NvmSize && rd.cursor <= |image| && |rd.buffer| == NvmBytesPerRow
    ensures |r| == NvmSize
  {
    if n == 0 then mem
    else PassMem(MemRows(mem, rd, n - 1, image, hw), n - 1, RowBuffer(rd, n - 1, image, hw.readFails), hw)
  }

  /** The status of the verify of row n-1; STATUS_ABORTED, ret's initial value, before any row. */
  function StatusRows(mem: seq<u8>, rd: Reader, n: nat, image: seq<u8>, hw: Hw, crc: seq<u8> -> u32): Status
    requires n <= RowsToFlash && |mem| == NvmSize && rd.cursor <= |image| && |rd.buffer| == NvmBytesPerRow
  {
    if n == 0 then Aborted
    else PerformNvmCrc(RowBuffer(rd, n - 1, image, hw.readFails), MemRows(mem, rd, n, image, hw), n - 1, hw, crc).status
  }

  /** The calls of one pass: the read, the erase, the page writes up to the first failure, the CRC calls. */
  function RowCalls(row: nat, hw: Hw): seq<Call> {
    [ReadFile, EraseRow(RowAddress(row))] + PageWrites(row, FirstFailingPage(hw, row, 0)) + CrcCalls(row, hw)
  }

  /** The calls of rows 0 .. n-1. */
  function CallsRows(n: nat, hw: Hw): seq<Call> {
    if n == 0 then [] else CallsRows(n - 1, hw) + RowCalls(n - 1, hw)
  }

  /** The calls of row n, appended one group at a time as the loop body makes them, extend those of rows 0 .. n-1. */
  lemma CallsRowsStep(before: seq<Call>, n: nat, hw: Hw)
    ensures before + CallsRows(n, hw) + [ReadFile] + [EraseRow(RowAddress(n))]
      + PageWrites(n, FirstFailingPage(hw, n, 0)) + CrcCalls(n, hw) == before + CallsRows(n + 1, hw)
  {
    Regroup(before, CallsRows(n, hw), ReadFile, EraseRow(RowAddress(n)), PageWrites(n, FirstFailingPage(hw, n, 0)), CrcCalls(n, hw));
  }

  lemma Regroup(before: seq<Call>, done: seq<Call>, x: Call, y: Call, w: seq<Call>, c: seq<Call>)
    ensures before + done + [x] + [y] + w + c == before + (done + ([x, y] + w + c))
  {
    assert [x] + [y] == [x, y];
  }

  /** Everything flash_bin leaves behind. */
  datatype Flash = Flash(mem: seq<u8>, rd: Reader, status: Status, calls: seq<Call>)

  /**
   * flash_bin: STATUS_ABORTED with nothing flashed when the binary cannot be
   * opened; otherwise all 360 rows from a cursor at 0 and the buffer as the
   * previous update left it, and the status of the last verify.
   */
  function FlashBin(mem: seq<u8>, buffer: seq<u8>, bins: map<string, seq<u8>>, name: string,
                    hw: Hw, crc: seq<u8> -> u32): (r: Flash)
    requires |mem| == NvmSize && |buffer| == NvmBytesPerRow
  {
    if name !in bins then Flash(mem, Reader(buffer, 0), Aborted, [Open(name), Close])
    else
      var rd := Reader(buffer, 0);
      var image := bins[name];
      Flash(MemRows(mem, rd, RowsToFlash, image, hw), ReadRows(rd, RowsToFlash, image, hw.readFails),
            StatusRows(mem, rd, RowsToFlash, image, hw, crc), [Open(name)] + CallsRows(RowsToFlash, hw) + [Close])
  }

  // ---------------------------------------------------------------------------
  // Properties of one row
  // ---------------------------------------------------------------------------

  /** The row's hardware never fails: erase, the four page writes and both CRC calls succeed. */
  predicate RowClean(hw: Hw, row: nat) {
    StatusAt(hw.eraseStatus, RowAddress(row)) == Ok &&
    (forall q | 0 <= q < PagesPerRow :: PageWriteOk(hw, row, q)) &&
    StatusAt(hw.crcBufferStatus, row) == Ok && StatusAt(hw.crcNvmStatus, row) == Ok
  }

  /** On a clean row the erase-then-write round trip leaves exactly the buffer in the row. */
  lemma CleanRowInstalls(mem: seq<u8>, row: nat, buf: seq<u8>, hw: Hw)
    requires row < RowsToFlash && |mem| == NvmSize && |buf| == NvmBytesPerRow && RowClean(hw, row)
    ensures RowOf(PassMem(mem, row, buf, hw), row) == buf
  {
    assert FirstFailingPage(hw, row, 0) == PagesPerRow;
  }

  /** ... and its verify passes. */
  lemma CleanRowVerifies(mem: seq<u8>, row: nat, buf: seq<u8>, hw: Hw, crc: seq<u8> -> u32)
    requires row < RowsToFlash && |mem| == NvmSize && |buf| == NvmBytesPerRow && RowClean(hw, row)
    ensures PerformNvmCrc(buf, PassMem(mem, row, buf, hw), row, hw, crc).status == Ok
  {
    CleanRowInstalls(mem, row, buf, hw);
    PerformNvmCrcVerdict(buf, PassMem(mem, row, buf, hw), row, hw, crc);
  }

  /** Every erase and page write in `cs` targets [lo, hi). */
  ghost predicate NvmCallsWithin(cs: seq<Call>, lo: int, hi: int) {
    forall c | c in cs && IsNvmCall(c) :: lo <= NvmTarget(c) < hi
  }

  /** One pass erases and writes only inside its own row. */
  lemma RowCallsInRow(row: nat, hw: Hw)
    ensures NvmCallsWithin(RowCalls(row, hw), RowAddress(row), RowAddress(row) + NvmBytesPerRow)
  {
    var writes := PageWrites(row, FirstFailingPage(hw, row, 0));
    forall c | c in writes ensures c.WritePage? && InRow(c.addr, row) {
      var i :| 0 <= i < |writes| && writes[i] == c;
      assert c == WritePage(PageAddress(row, i));
    }
  }

  // ---------------------------------------------------------------------------
  // Properties of the whole flashing loop
  // ---------------------------------------------------------------------------

  /** a and b agree on every byte outside [lo, hi). */
  ghost predicate SameOutside(a: seq<u8>, b: seq<u8>, lo: int, hi: int) {
    |a| == |b| && forall j | 0 <= j < |a| && !(lo <= j < hi) :: a[j] == b[j]
  }

  lemma SameOutsideTrans(a: seq<u8>, b: seq<u8>, c: seq<u8>, lo: int, mid: int, hi: int)
    requires lo <= mid <= hi && SameOutside(a, b, mid, hi) && SameOutside(b, c, lo, mid)
    ensures SameOutside(a, c, lo, hi)
  {
  }

  /** Row n changes no byte outside itself. */
  lemma NextRowKeepsOthers(mem: seq<u8>, rd: Reader, n: nat, image: seq<u8>, hw: Hw)
    requires n < RowsToFlash && |mem| == NvmSize && rd.cursor <= |image| && |rd.buffer| == NvmBytesPerRow
    ensures SameOutside(MemRows(mem, rd, n + 1, image, hw), MemRows(mem, rd, n, image, hw), RowAddress(n), RowAddress(n + 1))
  {
  }

  /** Rows m .. n-1 change no byte outside [APP_START_ADDRESS + 256 m, APP_START_ADDRESS + 256 n). */
  lemma {:induction false} FlashKeepsOtherRows(mem: seq<u8>, rd: Reader, m: nat, n: nat, image: seq<u8>, hw: Hw)
    requires m <= n <= RowsToFlash && |mem| == NvmSize && rd.cursor <= |image| && |rd.buffer| == NvmBytesPerRow
    ensures SameOutside(MemRows(mem, rd, n, image, hw), MemRows(mem, rd, m, image, hw), RowAddress(m), RowAddress(n))
  {
    if m < n {
      FlashKeepsOtherRows(mem, rd, m, n - 1, image, hw);
      NextRowKeepsOthers(mem, rd, n - 1, image, hw);
      SameOutsideTrans(MemRows(mem, rd, n, image, hw), MemRows(mem, rd, n - 1, image, hw), MemRows(mem, rd, m, image, hw),
                       RowAddress(m), RowAddress(n - 1), RowAddress(n));
    }
  }

  lemma SameRow(a: seq<u8>, b: seq<u8>, row: nat)
    requires row < RowsToFlash && |a| == NvmSize && |b| == NvmSize
    requires forall j | RowAddress(row) <= j < RowAddress(row) + NvmBytesPerRow :: a[j] == b[j]
    ensures RowOf(a, row) == RowOf(b, row)
  {
  }

  /** Every clean row among the first n holds, at the end, the buffer its own read left. */
  lemma FlashInstallsBuffers(mem: seq<u8>, rd: Reader, n: nat, image: seq<u8>, hw: Hw)
    requires n <= RowsToFlash && |mem| == NvmSize && rd.cursor <= |image| && |rd.buffer| == NvmBytesPerRow
    ensures forall row | 0 <= row < n && RowClean(hw, row) ::
      RowOf(MemRows(mem, rd, n, image, hw), row) == RowBuffer(rd, row, image, hw.readFails)
  {
    forall row | 0 <= row < n && RowClean(hw, row)
      ensures RowOf(MemRows(mem, rd, n, image, hw), row) == RowBuffer(rd, row, image, hw.readFails)
    {
      CleanRowStays(mem, rd, n, image, hw, row);
    }
  }

  /** A clean row holds its buffer once written, and no later row disturbs it. */
  lemma CleanRowStays(mem: seq<u8>, rd: Reader, n: nat, image: seq<u8>, hw: Hw, row: nat)
    requires n <= RowsToFlash && |mem| == NvmSize && rd.cursor <= |image| && |rd.buffer| == NvmBytesPerRow
    requires row < n && RowClean(hw, row)
    ensures RowOf(MemRows(mem, rd, n, image, hw), row) == RowBuffer(rd, row, image, hw.readFails)
  {
    var buf := RowBuffer(rd, row, image, hw.readFails);
    var before := MemRows(mem, rd, row, image, hw);
    var after := MemRows(mem, rd, row + 1, image, hw);
    assert after == PassMem(before, row, buf, hw);
    CleanRowInstalls(before, row, buf, hw);
    FlashKeepsOtherRows(mem, rd, row + 1, n, image, hw);
    SameOutsideRow(MemRows(mem, rd, n, image, hw), after, row, RowAddress(row + 1), RowAddress(n));
  }

  /** Two memories that agree outside [lo, hi) agree on every row lying below lo. */
  lemma SameOutsideRow(a: seq<u8>, b: seq<u8>, row: nat, lo: int, hi: int)
    requires row < RowsToFlash && |a| == NvmSize && SameOutside(a, b, lo, hi)
    requires RowAddress(row) + NvmBytesPerRow <= lo
    ensures RowOf(a, row) == RowOf(b, row)
  {
    SameRow(a, b, row);
  }

  /** Every erase and page write of the first n rows targets [APP_START_ADDRESS, APP_START_ADDRESS + 256 n). */
  lemma {:induction false} FlashCallsInAppRegion(n: nat, hw: Hw)
    ensures NvmCallsWithin(CallsRows(n, hw), AppStartAddress, RowAddress(n))
  {
    if n > 0 {
      FlashCallsInAppRegion(n - 1, hw);
      RowCallsInRow(n - 1, hw);
    }
  }

  /**
   * The loop reports only the last row: when row n-1 is clean the result is
   * STATUS_OK whatever failed on earlier rows.
   */
  lemma LastRowDecidesStatus(mem: seq<u8>, rd: Reader, n: nat, image: seq<u8>, hw: Hw, crc: seq<u8> -> u32)
    requires 0 < n <= RowsToFlash && |mem| == NvmSize && rd.cursor <= |image| && |rd.buffer| == NvmBytesPerRow
    requires RowClean(hw, n - 1)
    ensures StatusRows(mem, rd, n, image, hw, crc) == Ok
  {
    CleanRowVerifies(MemRows(mem, rd, n - 1, image, hw), n - 1, RowBuffer(rd, n - 1, image, hw.readFails), hw, crc);
  }

  /** Reads that do not fail advance the cursor by 256 bytes a row, up to the end of the binary. */
  lemma {:induction false} ReadsAdvance(rd: Reader, n: nat, image: seq<u8>, fails: set<nat>)
    requires rd.cursor <= |image| && |rd.buffer| == NvmBytesPerRow
    requires forall row | 0 <= row < n :: row !in fails
    ensures ReadRows(rd, n, image, fails).cursor == Min(rd.cursor + n * NvmBytesPerRow, |image|)
  {
    if n > 0 {
      ReadsAdvance(rd, n - 1, image, fails);
    }
  }

  /** A row lying wholly inside the binary is read whole. */
  lemma FullRowRead(rd: Reader, row: nat, image: seq<u8>, fails: set<nat>)
    requires rd.cursor == 0 && |rd.buffer| == NvmBytesPerRow && (row + 1) * NvmBytesPerRow <= |image|
    requires forall r | 0 <= r <= row :: r !in fails
    ensures RowBuffer(rd, row, image, fails) == image[row * NvmBytesPerRow..(row + 1) * NvmBytesPerRow]
  {
    ReadsAdvance(rd, row, image, fails);
  }

  /** Past the end of the binary a read copies nothing, so a row gets the buffer of the row before. */
  lemma ReadPastEnd(rd: Reader, row: nat, image: seq<u8>, fails: set<nat>)
    requires rd.cursor == 0 && |rd.buffer| == NvmBytesPerRow && 0 < row && |image| <= row * NvmBytesPerRow
    requires forall r | 0 <= r <= row :: r !in fails
    ensures RowBuffer(rd, row, image, fails) == RowBuffer(rd, row - 1, image, fails)
  {
    ReadsAdvance(rd, row, image, fails);
  }

  /** Row by row contents, stitched into the whole application region. */
  lemma {:induction false} RowsMakeRegion(mem: seq<u8>, image: seq<u8>, n: nat)
    requires |mem| == NvmSize && n <= RowsToFlash && |image| >= n * NvmBytesPerRow
    requires forall row | 0 <= row < n :: RowOf(mem, row) == image[row * NvmBytesPerRow..(row + 1) * NvmBytesPerRow]
    ensures mem[AppStartAddress..RowAddress(n)] == image[..n * NvmBytesPerRow]
  {
    if n > 0 {
      RowsMakeRegion(mem, image, n - 1);
      var k := (n - 1) * NvmBytesPerRow;
      assert mem[AppStartAddress..RowAddress(n)] == mem[AppStartAddress..RowAddress(n - 1)] + RowOf(mem, n - 1);
      assert image[..n * NvmBytesPerRow] == image[..k] + image[k..n * NvmBytesPerRow];
    }
  }

  /** Every row is clean on the hardware that never fails. */
  lemma FaultlessIsClean(row: nat)
    ensures RowClean(Faultless, row)
  {
  }

  /**
   * flash_bin on hardware that never fails: STATUS_OK, every row lying wholly
   * inside the binary installed in its row, and no byte outside the
   * application region changed.
   */
  lemma FlashBinInstallsImage(mem: seq<u8>, buffer: seq<u8>, bins: map<string, seq<u8>>, name: string,
                              crc: seq<u8> -> u32)
    requires |mem| == NvmSize && |buffer| == NvmBytesPerRow && name in bins
    ensures var r := FlashBin(mem, buffer, bins, name, Faultless, crc);
      var image := bins[name];
      r.status == Ok &&
      (forall row | 0 <= row < RowsToFlash && (row + 1) * NvmBytesPerRow <= |image| ::
        RowOf(r.mem, row) == image[row * NvmBytesPerRow..(row + 1) * NvmBytesPerRow]) &&
      (forall j | 0 <= j < NvmSize && !(AppStartAddress <= j < AppEndAddress) :: r.mem[j] == mem[j])
  {
    var rd := Reader(buffer, 0);
    var image := bins[name];
    FaultlessIsClean(RowsToFlash - 1);
    LastRowDecidesStatus(mem, rd, RowsToFlash, image, Faultless, crc);
    FlashKeepsOtherRows(mem, rd, 0, RowsToFlash, image, Faultless);
    FlashInstallsBuffers(mem, rd, RowsToFlash, image, Faultless);
    forall row | 0 <= row < RowsToFlash && (row + 1) * NvmBytesPerRow <= |image|
      ensures RowOf(MemRows(mem, rd, RowsToFlash, image, Faultless), row) == image[row * NvmBytesPerRow..(row + 1) * NvmBytesPerRow]
    {
      FaultlessIsClean(row);
      FullRowRead(rd, row, image, {});
    }
  }

  /** With a binary of at least 360 rows the whole application region ends up equal to its start. */
  lemma FlashBinFillsRegion(mem: seq<u8>, buffer: seq<u8>, bins: map<string, seq<u8>>, name: string,
                            crc: seq<u8> -> u32)
    requires |mem| == NvmSize && |buffer| == NvmBytesPerRow
    requires name in bins && |bins[name]| >= RowsToFlash * NvmBytesPerRow
    ensures FlashBin(mem, buffer, bins, name, Faultless, crc).mem[AppStartAddress..AppEndAddress]
      == bins[name][..RowsToFlash * NvmBytesPerRow]
  {
    var m := FlashBin(mem, buffer, bins, name, Faultless, crc).mem;
    FlashBinInstallsImage(mem, buffer, bins, name, crc);
    assert forall row | 0 <= row < RowsToFlash ::
      RowOf(m, row) == bins[name][row * NvmBytesPerRow..(row + 1) * NvmBytesPerRow];
    RowsMakeRegion(m, bins[name], RowsToFlash);
    assert RowAddress(RowsToFlash) == AppEndAddress;
  }

  /**
   * After the binary is exhausted the loop keeps flashing: on hardware that
   * never fails each later row repeats the row before it, because a read at
   * end of file leaves the buffer as it was.
   */
  lemma FlashBinRowsPastEnd(mem: seq<u8>, buffer: seq<u8>, bins: map<string, seq<u8>>, name: string,
                            crc: seq<u8> -> u32)
    requires |mem| == NvmSize && |buffer| == NvmBytesPerRow && name in bins
    ensures var r := FlashBin(mem, buffer, bins, name, Faultless, crc);
      forall row | 0 < row < RowsToFlash && |bins[name]| <= row * NvmBytesPerRow :: RowOf(r.mem, row) == RowOf(r.mem, row - 1)
  {
    var rd := Reader(buffer, 0);
    var image := bins[name];
    FlashInstallsBuffers(mem, rd, RowsToFlash, image, Faultless);
    forall row | 0 < row < RowsToFlash && |image| <= row * NvmBytesPerRow
      ensures RowOf(MemRows(mem, rd, RowsToFlash, image, Faultless), row)
        == RowOf(MemRows(mem, rd, RowsToFlash, image, Faultless), row - 1)
    {
      FaultlessIsClean(row);
      FaultlessIsClean(row - 1);
      ReadPastEnd(rd, row, image, {});
    }
  }

  /** flash_bin's erases and page writes all land in the application region, whatever fails. */
  lemma FlashBinCallsInAppRegion(mem: seq<u8>, buffer: seq<u8>, bins: map<string, seq<u8>>, name: string,
                                 hw: Hw, crc: seq<u8> -> u32)
    requires |mem| == NvmSize && |buffer| == NvmBytesPerRow
    ensures NvmCallsWithin(FlashBin(mem, buffer, bins, name, hw, crc).calls, AppStartAddress, AppEndAddress)
  {
    FlashCallsInAppRegion(RowsToFlash, hw);
  }

  // ---------------------------------------------------------------------------
  // Image selection in main
  // ---------------------------------------------------------------------------

  datatype Option<T> = None | Some(value: T)

  datatype Slot = SlotA | SlotB

  const FlagA: string := "0:Application_New.txt"
  const BinA: string := "0:Application_New.bin"
  const FlagB: string := "0:FlagB.txt"
  const BinB: string := "0:TestB.bin"

  function FlagOf(slot: Slot): string {
    match slot
    case SlotA => FlagA
    case SlotB => FlagB
  }

  function BinOf(slot: Slot): string {
    match slot
    case SlotA => BinA
    case SlotB => BinB
  }

  /** The slot main installs: A whenever its marker exists, B only when A's does not. */
  function SelectImage(flags: set<string>): (r: Option<Slot>)
    ensures r.Some? <==> FlagA in flags || FlagB in flags
    ensures r.Some? ==> FlagOf(r.value) in flags
    ensures r == Some(SlotB) ==> FlagA !in flags
  {
    if FlagA in flags then Some(SlotA)
    else if FlagB in flags then Some(SlotB)
    else None
  }

  /** The marker probes main makes, in order: B's only when A's marker is absent. */
  function ProbeCalls(flags: set<string>): (r: seq<Call>)
    ensures |r| >= 1 && r[0] == Probe(FlagA)
    ensures Probe(FlagB) in r <==> FlagA !in flags
  {
    if FlagA in flags then [Probe(FlagA)] else [Probe(FlagA), Probe(FlagB)]
  }

  /**
   * The files on the card after f_unlink(name): the file is gone unless the
   * unlink failed, and every other file is kept.
   */
  function AfterUnlink(flags: set<string>, name: string, unlinkFails: set<string>): (r: set<string>)
    ensures name in r <==> name in flags && name in unlinkFails
    ensures r - {name} == flags - {name}
  {
    if name in unlinkFails then flags else flags - {name}
  }

  /**
   * Consuming the marker makes the choice one-shot exactly when the unlink
   * succeeds: the next boot picks the same slot again iff the marker's unlink
   * failed, and with both markers present and A's consumed, B's is left for a
   * later boot.
   */
  lemma MarkerConsumedOnce(flags: set<string>, unlinkFails: set<string>)
    requires SelectImage(flags).Some?
    ensures var slot := SelectImage(flags).value;
      var next := AfterUnlink(flags, FlagOf(slot), unlinkFails);
      (SelectImage(next) == Some(slot) <==> FlagOf(slot) in unlinkFails) &&
      (slot == SlotA && FlagB in flags && FlagA !in unlinkFails ==> SelectImage(next) == Some(SlotB))
  {
  }

  /**
   * The slots chosen by n successive boots when nothing but main's own unlinks
   * changes the card; None is a boot that flashes nothing.
   */
  function Selections(flags: set<string>, unlinkFails: set<string>, n: nat): (r: seq<Option<Slot>>)
    ensures |r| == n
    ensures n > 0 ==> r[0] == SelectImage(flags)
  {
    if n == 0 then []
    else
      var s := SelectImage(flags);
      var next := if s.Some? then AfterUnlink(flags, FlagOf(s.value), unlinkFails) else flags;
      [s] + Selections(next, unlinkFails, n - 1)
  }

  /** A marker whose unlink fails is never consumed: every later boot flashes the same slot again. */
  lemma {:induction false} StuckMarkerReflashes(flags: set<string>, unlinkFails: set<string>, n: nat)
    requires SelectImage(flags).Some? && FlagOf(SelectImage(flags).value) in unlinkFails
    ensures forall i | 0 <= i < n :: Selections(flags, unlinkFails, n)[i] == SelectImage(flags)
  {
    if n > 0 {
      MarkerConsumedOnce(flags, unlinkFails);
      var slot := SelectImage(flags).value;
      assert AfterUnlink(flags, FlagOf(slot), unlinkFails) == flags;
      StuckMarkerReflashes(flags, unlinkFails, n - 1);
    }
  }

  /** A slot whose marker is absent is never chosen again, since unlinks only remove files. */
  lemma {:induction false} AbsentMarkerNeverChosen(flags: set<string>, unlinkFails: set<string>, n: nat, slot: Slot)
    requires FlagOf(slot) !in flags
    ensures forall i | 0 <= i < n :: Selections(flags, unlinkFails, n)[i] != Some(slot)
  {
    if n > 0 {
      var s := SelectImage(flags);
      var next := if s.Some? then AfterUnlink(flags, FlagOf(s.value), unlinkFails) else flags;
      assert FlagOf(slot) !in next;
      AbsentMarkerNeverChosen(next, unlinkFails, n - 1, slot);
      assert Selections(flags, unlinkFails, n) == [s] + Selections(next, unlinkFails, n - 1);
    }
  }

  /** No slot is chosen by two boots of the run. */
  ghost predicate NoSlotTwice(r: seq<Option<Slot>>) {
    forall i, j | 0 <= i < j < |r| && r[i].Some? :: r[j] != r[i]
  }

  /**
   * When both markers' unlinks succeed, each slot is flashed at most once over
   * any run of boots.
   */
  lemma {:induction false} ConsumedMarkersFlashOnce(flags: set<string>, unlinkFails: set<string>, n: nat)
    requires FlagA !in unlinkFails && FlagB !in unlinkFails
    ensures NoSlotTwice(Selections(flags, unlinkFails, n))
  {
    if n > 0 {
      var s := SelectImage(flags);
      var next := if s.Some? then AfterUnlink(flags, FlagOf(s.value), unlinkFails) else flags;
      var rest := Selections(next, unlinkFails, n - 1);
      var r := Selections(flags, unlinkFails, n);
      assert r == [s] + rest;
      ConsumedMarkersFlashOnce(next, unlinkFails, n - 1);
      if s.Some? {
        assert FlagOf(s.value) !in next;
        AbsentMarkerNeverChosen(next, unlinkFails, n - 1, s.value);
      }
      forall i, j | 0 <= i < j < n && r[i].Some?
        ensures r[j] != r[i]
      {
        assert r[j] == rest[j - 1];
        if i == 0 {
          assert rest[j - 1] != Some(s.value);
        } else {
          assert r[i] == rest[i - 1];
        }
      }
    }
  }

  /** The messages main prints around the update. */
  const MountFailMessage: string := "SD CARD failed! Check your connections. System will restart in 5 seconds..."
  const MountOkMessage: string := "SD CARD mount success! Filesystem also mounted. \r\n"
  const UpdatedMessage: string := "Updated Firmware Successfully"
  const NotUpdatedMessage: string := "Unsuccessful in updating Firmware"
  const ExitMessage: string := "ESE5160 - EXIT BOOTLOADER"

  function FlashReport(status: Status): (msg: string)
    ensures msg == UpdatedMessage <==> status == Ok
  {
    if status == Ok then UpdatedMessage else NotUpdatedMessage
  }

  /** The two ways a boot ends: the device resets, or control goes to the application. */
  datatype BootEnd = DeviceReset | JumpedToApplication

  // ---------------------------------------------------------------------------
  // The engine, in place
  // ---------------------------------------------------------------------------

  class Bootloader {
    /** The flash, indexed by absolute address. */
    const nvm: array<u8>
    /** The global row buffer; it keeps its contents from one row to the next. */
    const readBuffer: array<u8>
    /** The marker files present on the card. */
    var flags: set<string>
    /** The binaries on the card, by name. */
    const bins: map<string, seq<u8>>
    /** The file open in `file_object` and its read cursor. */
    var image: seq<u8>
    var cursor: nat
    const hw: Hw
    const crc: seq<u8> -> u32
    /** The DSU register at 0x41007058 that the CRC erratum fence manipulates. */
    ghost var dsuFence: bv32
    /** Every call made so far into storage, NVM, CRC unit and console. */
    ghost var calls: seq<Call>

    ghost predicate Valid()
      reads this
    {
      nvm.Length == NvmSize && readBuffer.Length == NvmBytesPerRow && nvm != readBuffer &&
      cursor <= |image|
    }

    constructor (flash: seq<u8>, flags: set<string>, bins: map<string, seq<u8>>, hw: Hw, crc: seq<u8> -> u32)
      requires |flash| == NvmSize
      ensures Valid() && fresh(nvm) && fresh(readBuffer)
      ensures nvm[..] == flash && readBuffer[..] == seq(NvmBytesPerRow, _ => 0)
      ensures this.flags == flags && this.bins == bins && this.hw == hw && this.crc == crc
      ensures calls == []
    {
      nvm := new u8[NvmSize](i requires 0 <= i < NvmSize => flash[i]);
      readBuffer := new u8[NvmBytesPerRow](_ => 0);
      this.flags := flags;
      this.bins := bins;
      this.hw := hw;
      this.crc := crc;
      image := [];
      cursor := 0;
      calls := [];
    }

    /** erase_nvm: the primitive erase, then the 0xFF scan of the row on failure only. */
    method EraseNvmRow(row: nat) returns (ret: Status)
      requires Valid() && row < RowsToFlash
      modifies nvm, this`calls
      ensures var e := EraseNvm(old(nvm[..]), row, hw);
        nvm[..] == e.mem && ret == e.status && calls == old(calls) + e.calls
    {
      var addr := RowAddress(row);
      ret := StatusAt(hw.eraseStatus, addr);
      if ret == Ok {
        forall j | addr <= j < addr + NvmBytesPerRow {
          nvm[j] := ErasedByte;
        }
        assert nvm[..] == EraseRowMem(old(nvm[..]), row);
      }
      calls := calls + [EraseRow(addr)];
      if ret != Ok {
        var i := 0;
        while i < NvmBytesPerRow
          invariant 0 <= i <= NvmBytesPerRow
          invariant forall j | addr <= j < addr + i :: nvm[j] == ErasedByte
        {
          if nvm[addr + i] != ErasedByte {
            ret := Aborted;
            break;
          }
          i := i + 1;
        }
        assert ret != Aborted ==> RowErased(nvm[..], row);
      }
    }

    /** One page of write_nvm: each byte of the page ANDed with the matching byte of the read buffer. */
    method ProgramPage(row: nat, page: nat, ghost start: seq<u8>)
      requires Valid() && row < RowsToFlash && page < PagesPerRow && |start| == NvmSize
      requires nvm[..] == ProgramPagesMem(start, row, readBuffer[..], page)
      modifies nvm
      ensures nvm[..] == ProgramPagesMem(start, row, readBuffer[..], page + 1)
    {
      var addr := PageAddress(row, page);
      forall j | addr <= j < addr + NvmPageSize {
        nvm[j] := And8(nvm[j], readBuffer[j - RowAddress(row)]);
      }
    }

    /** write_nvm: four page writes from the row buffer, stopping at the first failure. */
    method WriteNvmRow(row: nat) returns (ret: Status)
      requires Valid() && row < RowsToFlash
      modifies nvm, this`calls
      ensures var w := WriteNvm(old(nvm[..]), row, readBuffer[..], hw);
        nvm[..] == w.mem && ret == w.status && calls == old(calls) + w.calls
    {
      ret := Aborted;
      var page := 0;
      while page < PagesPerRow
        invariant 0 <= page <= PagesPerRow
        invariant forall q | 0 <= q < page :: PageWriteOk(hw, row, q)
        invariant nvm[..] == ProgramPagesMem(old(nvm[..]), row, readBuffer[..], page)
        invariant calls == old(calls) + seq(page, i requires 0 <= i < page => WritePage(PageAddress(row, i)))
        invariant page > 0 ==> ret == Ok
      {
        var addr := PageAddress(row, page);
        ret := StatusAt(hw.writeStatus, addr);
        if ret == Ok {
          ProgramPage(row, page, old(nvm[..]));
        }
        calls := calls + [WritePage(addr)];
        if ret != Ok {
          assert FirstFailingPage(hw, row, 0) == page;
          assert calls == old(calls) + PageWrites(row, page);
          return;
        }
        page := page + 1;
        assert calls == old(calls) + seq(page, i requires 0 <= i < page => WritePage(PageAddress(row, i)));
      }
      assert FirstFailingPage(hw, row, 0) == PagesPerRow;
    }

    /** perform_nvm_crc, with the erratum fence on the DSU register around the CRC of the RAM buffer. */
    method PerformNvmCrcRow(row: nat) returns (ret: Status)
      requires Valid() && row < RowsToFlash
      modifies this`dsuFence, this`calls
      ensures var v := PerformNvmCrc(readBuffer[..], nvm[..], row, hw, crc);
        ret == v.status && calls == old(calls) + v.calls
      ensures dsuFence == SetCrcFence(ClearCrcFence(old(dsuFence)))
    {
      var firstResult: u32 := 0;
      dsuFence := ClearCrcFence(dsuFence);
      calls := calls + [FenceClear];
      var code := StatusAt(hw.crcBufferStatus, row);
      calls := calls + [CrcBuffer];
      if code == Ok {
        firstResult := crc(readBuffer[..]);
      }
      dsuFence := SetCrcFence(dsuFence);
      calls := calls + [FenceSet];
      var secondResult: u32 := 0;
      if code == Ok {
        var addr := RowAddress(row);
        code := StatusAt(hw.crcNvmStatus, row);
        calls := calls + [CrcNvm(addr)];
        if code == Ok {
          secondResult := crc(nvm[addr..addr + NvmBytesPerRow]);
        }
      }
      ret := if firstResult == secondResult then Ok else Aborted;
    }

    /** f_read of one row's worth of the open binary into the row buffer. */
    method ReadNextRow(row: nat) returns (ok: bool)
      requires Valid()
      modifies readBuffer, this`cursor, this`calls
      ensures var rd := ReadRow(Reader(old(readBuffer[..]), old(cursor)), image, row in hw.readFails);
        readBuffer[..] == rd.buffer && cursor == rd.cursor && calls == old(calls) + [ReadFile]
      ensures ok <==> row !in hw.readFails
      ensures Valid()
    {
      calls := calls + [ReadFile];
      ok := row !in hw.readFails;
      if ok {
        var n := Min(NvmBytesPerRow, |image| - cursor);
        ghost var before := readBuffer[..];
        forall j | 0 <= j < n {
          readBuffer[j] := image[cursor + j];
        }
        assert readBuffer[..] == image[cursor..cursor + n] + before[n..];
        cursor := cursor + n;
      }
    }

    /** One pass of flash_bin's loop: f_read into the row buffer, erase_nvm, write_nvm, perform_nvm_crc. */
    method FlashNextRow(row: nat) returns (ret: Status)
      requires Valid() && row < RowsToFlash
      modifies nvm, readBuffer, this`cursor, this`dsuFence, this`calls
      ensures Valid()
      ensures var rd := ReadRow(Reader(old(readBuffer[..]), old(cursor)), image, row in hw.readFails);
        Reader(readBuffer[..], cursor) == rd && nvm[..] == PassMem(old(nvm[..]), row, rd.buffer, hw) &&
        ret == PerformNvmCrc(rd.buffer, nvm[..], row, hw, crc).status &&
        calls == old(calls) + [ReadFile] + [EraseRow(RowAddress(row))]
                 + PageWrites(row, FirstFailingPage(hw, row, 0)) + CrcCalls(row, hw)
      ensures dsuFence == SetCrcFence(ClearCrcFence(old(dsuFence)))
    {
      var readOk := ReadNextRow(row);
      ghost var rd := Reader(readBuffer[..], cursor);
      ret := EraseNvmRow(row);
      ret := WriteNvmRow(row);
      PassIsEraseThenWrite(old(nvm[..]), row, readBuffer[..], hw);
      ghost var written := nvm[..];
      ret := PerformNvmCrcRow(row);
      assert nvm[..] == written && Reader(readBuffer[..], cursor) == rd;
    }

    /** The 360-row loop of flash_bin over the open binary, from the cursor at 0. */
    method FlashAllRows() returns (ret: Status)
      requires Valid() && cursor == 0
      modifies nvm, readBuffer, this`cursor, this`dsuFence, this`calls
      ensures Valid()
      ensures var rd0 := Reader(old(readBuffer[..]), 0);
        nvm[..] == MemRows(old(nvm[..]), rd0, RowsToFlash, image, hw) &&
        Reader(readBuffer[..], cursor) == ReadRows(rd0, RowsToFlash, image, hw.readFails) &&
        ret == StatusRows(old(nvm[..]), rd0, RowsToFlash, image, hw, crc) &&
        calls == old(calls) + CallsRows(RowsToFlash, hw)
    {
      ret := Aborted;
      ghost var mem0 := nvm[..];
      ghost var rd0 := Reader(readBuffer[..], 0);
      ghost var calls0 := calls;
      var row := 0;
      while row < RowsToFlash
        invariant 0 <= row <= RowsToFlash && Valid()
        invariant nvm[..] == MemRows(mem0, rd0, row, image, hw)
        invariant Reader(readBuffer[..], cursor) == ReadRows(rd0, row, image, hw.readFails)
        invariant ret == StatusRows(mem0, rd0, row, image, hw, crc)
        invariant calls == calls0 + CallsRows(row, hw)
      {
        ret := FlashNextRow(row);
        CallsRowsStep(calls0, row, hw);
        row := row + 1;
      }
    }

    /** flash_bin: open the binary, run the 360-row loop, close, return the last verify status. */
    method FlashBinFile(name: string) returns (ret: Status)
      requires Valid()
      modifies nvm, readBuffer, this`image, this`cursor, this`dsuFence, this`calls
      ensures Valid()
      ensures var f := FlashBin(old(nvm[..]), old(readBuffer[..]), bins, name, hw, crc);
        nvm[..] == f.mem && readBuffer[..] == f.rd.buffer && ret == f.status &&
        calls == old(calls) + f.calls
    {
      calls := calls + [Open(name)];
      if name !in bins {
        calls := calls + [Close];
        return Aborted;
      }
      image := bins[name];
      cursor := 0;
      ret := FlashAllRows();
      calls := calls + [Close];
      AppendAssoc3(old(calls), [Open(name)], CallsRows(RowsToFlash, hw), [Close]);
    }

    /** The steps of main for a slot whose marker is present: delete the marker, then flash the slot's binary. */
    method ConsumeAndFlash(slot: Slot) returns (status: Status)
      requires Valid()
      modifies nvm, readBuffer, this`flags, this`image, this`cursor, this`dsuFence, this`calls
      ensures Valid()
      ensures var f := FlashBin(old(nvm[..]), old(readBuffer[..]), bins, BinOf(slot), hw, crc);
        status == f.status && flags == AfterUnlink(old(flags), FlagOf(slot), hw.unlinkFails) &&
        nvm[..] == f.mem && calls == old(calls) + [Unlink(FlagOf(slot))] + f.calls
    {
      if FlagOf(slot) !in hw.unlinkFails {
        flags := flags - {FlagOf(slot)};
      }
      calls := calls + [Unlink(FlagOf(slot))];
      status := FlashBinFile(BinOf(slot));
    }

    /**
     * The marker probes of main: A's marker first, then B's only when A's is
     * absent; the first one present is consumed and its binary flashed.
     */
    method ProbeAndFlash() returns (isFlashing: bool, status: Status)
      requires Valid()
      modifies nvm, readBuffer, this`flags, this`image, this`cursor, this`dsuFence, this`calls
      ensures Valid()
      ensures isFlashing <==> SelectImage(old(flags)).Some?
      ensures !isFlashing ==> flags == old(flags) && nvm[..] == old(nvm[..]) && calls == old(calls) + ProbeCalls(old(flags))
      ensures isFlashing ==>
        var slot := SelectImage(old(flags)).value;
        var f := FlashBin(old(nvm[..]), old(readBuffer[..]), bins, BinOf(slot), hw, crc);
        status == f.status && flags == AfterUnlink(old(flags), FlagOf(slot), hw.unlinkFails) &&
        nvm[..] == f.mem && calls == old(calls) + ProbeCalls(old(flags)) + [Unlink(FlagOf(slot))] + f.calls
    {
      isFlashing := false;
      status := Ok;
      calls := calls + [Probe(FlagA)];
      if FlagA in flags {
        isFlashing := true;
        status := ConsumeAndFlash(SlotA);
      } else {
        calls := calls + [Probe(FlagB)];
        if FlagB in flags {
          isFlashing := true;
          status := ConsumeAndFlash(SlotB);
        }
      }
    }

    /**
     * main from the mount onwards: reset when the card does not mount;
     * otherwise consume the marker of the selected slot, flash its binary,
     * report the outcome, and jump to the application.
     */
    method Boot(mounted: bool) returns (end: BootEnd)
      requires Valid()
      modifies nvm, readBuffer, this`flags, this`image, this`cursor, this`dsuFence, this`calls
      ensures Valid()
      ensures !mounted ==>
        end == DeviceReset && flags == old(flags) && nvm[..] == old(nvm[..]) &&
        calls == old(calls) + [Print(MountFailMessage), Reset]
      ensures mounted && SelectImage(old(flags)) == None ==>
        end == JumpedToApplication && flags == old(flags) && nvm[..] == old(nvm[..]) &&
        calls == old(calls) + [Print(MountOkMessage)] + ProbeCalls(old(flags)) + [Print(ExitMessage), Deinit, Jump]
      ensures mounted && SelectImage(old(flags)).Some? ==>
        var slot := SelectImage(old(flags)).value;
        var f := FlashBin(old(nvm[..]), old(readBuffer[..]), bins, BinOf(slot), hw, crc);
        end == JumpedToApplication && flags == AfterUnlink(old(flags), FlagOf(slot), hw.unlinkFails) &&
        nvm[..] == f.mem &&
        calls == old(calls) + [Print(MountOkMessage)] + ProbeCalls(old(flags)) + [Unlink(FlagOf(slot))]
                 + f.calls + [Print(FlashReport(f.status)), Print(ExitMessage), Deinit, Jump]
    {
      if !mounted {
        calls := calls + [Print(MountFailMessage), Reset];
        return DeviceReset;
      }
      calls := calls + [Print(MountOkMessage)];
      var isFlashing, flashStatus := ProbeAndFlash();
      if isFlashing {
        calls := calls + [Print(FlashReport(flashStatus))];
      }
      calls := calls + [Print(ExitMessage), Deinit, Jump];
      end := JumpedToApplication;
    }
  }
}
