/**
 * The register layer of the LIS2DH accelerometer driver
 * (A12G/Application/src/IMU/lis2dh/lis2dh_reg.c) and its I2C platform glue.
 *
 * Every accessor goes through `lis2dh_read_reg` / `lis2dh_write_reg`, which
 * refuse a NULL context with -1 and otherwise call `platform_read` /
 * `platform_write`. Those lay the frame out in the global `msgOutImu`, fill
 * the transfer record `imuData` (device address 0x19) and hand it to the I2C
 * driver, whose status for the n-th transfer is the oracle `bus(n)`.
 *
 * The sensor is modelled as a file of 128 register bytes. A successful
 * transfer reads or writes it; a failed one touches neither the sensor nor
 * the caller's buffer. As on the LIS2DH, a multi-byte transfer advances the
 * register address only when bit 7 of the sub-address is set.
 *
 * Register addresses, bit-field positions and enumeration codes are those of
 * the driver's header lis2dh_reg.h, which is not part of this model; they are
 * written out here as the LIS2DH datasheet gives them.
 */
module Lis2dh {
  import opened Machine

  const DeviceAddress: u8 := 0x19
  const RegisterCount: nat := 128

  const OutTempL: bv8 := 0x0C
  const CtrlReg1: bv8 := 0x20
  const CtrlReg2: bv8 := 0x21
  const CtrlReg4: bv8 := 0x23
  const StatusReg: bv8 := 0x27
  const OutXL: bv8 := 0x28
  const FifoCtrlReg: bv8 := 0x2E
  /** Bit 7 of the sub-address: advance the register address after each byte. */
  const AutoIncrement: bv8 := 0x80

  // ---------------------------------------------------------------------------
  // Bit fields
  // ---------------------------------------------------------------------------

  /** The bit fields of the registers the modelled accessors use. */
  datatype Field =
    | Lpen    // CTRL_REG1 bit 3
    | Odr     // CTRL_REG1 bits 4-7
    | Hpcf    // CTRL_REG2 bits 4-5
    | Hr      // CTRL_REG4 bit 3
    | Fs      // CTRL_REG4 bits 4-5
    | Fm      // FIFO_CTRL_REG bits 6-7
    | Zyxda   // STATUS_REG bit 3

  function Register(f: Field): bv8 {
    match f
    case Lpen => CtrlReg1
    case Odr => CtrlReg1
    case Hpcf => CtrlReg2
    case Hr => CtrlReg4
    case Fs => CtrlReg4
    case Fm => FifoCtrlReg
    case Zyxda => StatusReg
  }

  /** The position of the field's lowest bit. */
  function Shift(f: Field): bv8 {
    match f
    case Lpen => 3
    case Odr => 4
    case Hpcf => 4
    case Hr => 3
    case Fs => 4
    case Fm => 6
    case Zyxda => 3
  }

  /** The largest value the field holds: its width in one bits. */
  function Ones(f: Field): bv8 {
    match f
    case Lpen => 1
    case Odr => 0xF
    case Hpcf => 3
    case Hr => 1
    case Fs => 3
    case Fm => 3
    case Zyxda => 1
  }

  /** Reading a C bit-field member: the field's bits of `b`, shifted down. */
  function GetField(b: bv8, f: Field): (v: bv8)
    ensures v <= Ones(f)
  {
    (b >> Shift(f)) & Ones(f)
  }

  /**
   * Assigning a C bit-field member: `b` with the field's bits replaced by `v`.
   * The field then reads back `v`, and every other field of the same register
   * keeps its value.
   */
  function SetField(b: bv8, f: Field, v: bv8): (r: bv8)
    requires v <= Ones(f)
    ensures GetField(r, f) == v
    ensures forall g: Field | g != f && Register(g) == Register(f) :: GetField(r, g) == GetField(b, g)
  {
    (b & !(Ones(f) << Shift(f))) | (v << Shift(f))
  }

  /** Writing back the value a field already holds changes nothing in the register. */
  lemma SetFieldSame(b: bv8, f: Field)
    ensures SetField(b, f, GetField(b, f)) == b
  {
  }

  // ---------------------------------------------------------------------------
  // Enumerations and their decoders
  // ---------------------------------------------------------------------------

  /** lis2dh_odr_t. */
  datatype DataRate =
    | PowerDown | Odr1Hz | Odr10Hz | Odr25Hz | Odr50Hz | Odr100Hz | Odr200Hz | Odr400Hz
    | Odr1kHz620Lp | Odr5kHz376Lp1kHz344NmHp

  /** The code of a data rate in the ODR field; decoding it gives the rate back. */
  function DataRateCode(r: DataRate): (c: bv8)
    ensures c <= 9 && DecodeDataRate(c) == r
  {
    match r
    case PowerDown => 0
    case Odr1Hz => 1
    case Odr10Hz => 2
    case Odr25Hz => 3
    case Odr50Hz => 4
    case Odr100Hz => 5
    case Odr200Hz => 6
    case Odr400Hz => 7
    case Odr1kHz620Lp => 8
    case Odr5kHz376Lp1kHz344NmHp => 9
  }

  /** The switch of lis2dh_data_rate_get: codes 10 to 15 are not listed and read as POWER_DOWN. */
  function DecodeDataRate(c: bv8): (r: DataRate)
    ensures c > 9 ==> r == PowerDown
  {
    if c == 0 then PowerDown
    else if c == 1 then Odr1Hz
    else if c == 2 then Odr10Hz
    else if c == 3 then Odr25Hz
    else if c == 4 then Odr50Hz
    else if c == 5 then Odr100Hz
    else if c == 6 then Odr200Hz
    else if c == 7 then Odr400Hz
    else if c == 8 then Odr1kHz620Lp
    else if c == 9 then Odr5kHz376Lp1kHz344NmHp
    else PowerDown
  }

  /** Every listed code decodes to the rate whose code it is. */
  lemma DecodeDataRateListed(c: bv8)
    requires c <= 9
    ensures DataRateCode(DecodeDataRate(c)) == c
  {
  }

  /** lis2dh_fs_t. */
  datatype FullScale = Fs2g | Fs4g | Fs8g | Fs16g

  function FullScaleCode(fs: FullScale): (c: bv8)
    ensures c <= Ones(Fs) && DecodeFullScale(c) == fs
  {
    match fs
    case Fs2g => 0
    case Fs4g => 1
    case Fs8g => 2
    case Fs16g => 3
  }

  /** The switch of lis2dh_full_scale_get; its default (2g) is for codes the 2-bit field cannot hold. */
  function DecodeFullScale(c: bv8): (fs: FullScale)
    ensures c > 3 ==> fs == Fs2g
  {
    if c == 0 then Fs2g else if c == 1 then Fs4g else if c == 2 then Fs8g else if c == 3 then Fs16g else Fs2g
  }

  /** lis2dh_hpcf_t. */
  datatype HighPassCutoff = Aggressive | Strong | Medium | Light

  function HighPassCutoffCode(h: HighPassCutoff): (c: bv8)
    ensures c <= Ones(Hpcf) && DecodeHighPassCutoff(c) == h
  {
    match h
    case Aggressive => 0
    case Strong => 1
    case Medium => 2
    case Light => 3
  }

  /** The switch of lis2dh_high_pass_bandwidth_get; its default is LIGHT. */
  function DecodeHighPassCutoff(c: bv8): (h: HighPassCutoff)
    ensures c > 3 ==> h == Light
  {
    if c == 0 then Aggressive else if c == 1 then Strong else if c == 2 then Medium else Light
  }

  /** lis2dh_fm_t. */
  datatype FifoMode = Bypass | Fifo | DynamicStream | StreamToFifo

  function FifoModeCode(m: FifoMode): (c: bv8)
    ensures c <= Ones(Fm) && DecodeFifoMode(c) == m
  {
    match m
    case Bypass => 0
    case Fifo => 1
    case DynamicStream => 2
    case StreamToFifo => 3
  }

  /** The switch of lis2dh_fifo_mode_get; its default is BYPASS. */
  function DecodeFifoMode(c: bv8): (m: FifoMode)
    ensures c > 3 ==> m == Bypass
  {
    if c == 1 then Fifo else if c == 2 then DynamicStream else if c == 3 then StreamToFifo else Bypass
  }

  /**
   * On the 2-bit fields every code is listed, so decoding is one-to-one there
   * and the defaults of the three switches are never reached.
   */
  lemma TwoBitDecodersListed(c: bv8)
    requires c <= 3
    ensures FullScaleCode(DecodeFullScale(c)) == c
    ensures HighPassCutoffCode(DecodeHighPassCutoff(c)) == c
    ensures FifoModeCode(DecodeFifoMode(c)) == c
  {
  }

  /** lis2dh_op_md_t: the resolution, set by CTRL_REG1.lpen and CTRL_REG4.hr together. */
  datatype OperatingMode = Hr12bit | Nm10bit | Lp8bit

  /** The (lpen, hr) pair lis2dh_operating_mode_set writes for each mode. */
  function ModeBits(m: OperatingMode): (bits: (bv8, bv8))
    ensures bits.0 <= 1 && bits.1 <= 1
    ensures DecodeOperatingMode(bits.0, bits.1) == m
  {
    match m
    case Hr12bit => (0, 1)
    case Nm10bit => (0, 0)
    case Lp8bit => (1, 0)
  }

  /** lis2dh_operating_mode_get: lpen set means LP whatever hr is; otherwise hr set means HR; otherwise NM. */
  function DecodeOperatingMode(lpen: bv8, hr: bv8): (m: OperatingMode)
    ensures m == Lp8bit <==> lpen == 1
    ensures m == Hr12bit <==> lpen != 1 && hr == 1
  {
    if lpen == 1 then Lp8bit else if hr == 1 then Hr12bit else Nm10bit
  }

  // ---------------------------------------------------------------------------
  // Raw output words
  // ---------------------------------------------------------------------------

  /**
   * `v = (int16_t)hi; v = v * 256 + (int16_t)lo` stored in an int16_t: the
   * little-endian two's-complement word of the two bytes.
   */
  function Int16FromBytes(lo: u8, hi: u8): (v: i16)
    ensures v == 256 * hi + lo - (if hi >= 0x80 then 0x1_0000 else 0)
  {
    ToInt16(256 * hi + lo)
  }

  /** The two bytes, low then high, the sensor outputs for a value. */
  function Int16Bytes(v: i16): (bytes: (u8, u8)) {
    var u := if v < 0 then v + 0x1_0000 else v;
    (u % 256, u / 256)
  }

  /** Every int16 value survives the trip through its two output bytes. */
  lemma Int16RoundTrip(v: i16)
    ensures Int16FromBytes(Int16Bytes(v).0, Int16Bytes(v).1) == v
  {
    var u := if v < 0 then v + 0x1_0000 else v;
    assert u == 256 * (u / 256) + u % 256;
    assert v < 0 <==> u / 256 >= 0x80;
  }

  /** And every pair of bytes survives the trip through the value they assemble to. */
  lemma BytesRoundTrip(lo: u8, hi: u8)
    ensures Int16Bytes(Int16FromBytes(lo, hi)) == (lo, hi)
  {
    var u := 256 * hi + lo;
    assert u / 256 == hi && u % 256 == lo;
  }

  // ---------------------------------------------------------------------------
  // The sensor and the register transactions, as values
  // ---------------------------------------------------------------------------

  /** The stmdev_ctx_t pointer an accessor is given: NULL, or the platform context. */
  datatype Ctx = NullCtx | PlatformCtx

  /** One I2C transfer as `imuData` describes it: address, the `lenOut` bytes sent, `lenIn`. */
  datatype Frame = Frame(address: u8, out: seq<bv8>, lenIn: nat)

  /** The sensor's registers and the transfers made so far. */
  datatype Sensor = Sensor(regs: seq<bv8>, frames: seq<Frame>)

  predicate WellFormed(s: Sensor) {
    |s.regs| == RegisterCount
  }

  /** The register the k-th byte of a transfer to sub-address `reg` reaches. */
  function SubAddress(reg: bv8, k: nat): (r: nat)
    ensures r < RegisterCount
  {
    var base := (reg & 0x7F) as int;
    if reg & AutoIncrement != 0 then (base + k) % 128 else base
  }

  /** The bytes a read of `len` registers from sub-address `reg` returns. */
  function DeviceRead(regs: seq<bv8>, reg: bv8, len: nat): (data: seq<bv8>)
    requires |regs| == RegisterCount
    ensures |data| == len && forall k | 0 <= k < len :: data[k] == regs[SubAddress(reg, k)]
  {
    seq(len, k requires 0 <= k < len => regs[SubAddress(reg, k)])
  }

  /** The register file after a write of `data` to sub-address `reg`, byte by byte. */
  function DeviceWrite(regs: seq<bv8>, reg: bv8, data: seq<bv8>): (r: seq<bv8>)
    requires |regs| == RegisterCount
    ensures |r| == RegisterCount
  {
    if data == [] then regs
    else DeviceWrite(regs, reg, data[..|data| - 1])[SubAddress(reg, |data| - 1) := data[|data| - 1]]
  }

  /** A one-byte write replaces exactly the addressed register. */
  lemma DeviceWriteOne(regs: seq<bv8>, reg: bv8, b: bv8)
    requires |regs| == RegisterCount
    ensures DeviceWrite(regs, reg, [b]) == regs[SubAddress(reg, 0) := b]
  {
    assert [b][..0] == [];
  }

  /** The outcome of `lis2dh_read_reg`: its status, the caller's buffer afterwards, the sensor afterwards. */
  datatype ReadOutcome = ReadOutcome(ret: i32, data: seq<bv8>, sensor: Sensor)

  /** The outcome of `lis2dh_write_reg` (and of the setters built on it). */
  datatype WriteOutcome = WriteOutcome(ret: i32, sensor: Sensor)

  /**
   * lis2dh_read_reg into a buffer holding `buf`: -1 and nothing touched for a
   * NULL context; otherwise one transfer that sends only [reg] and asks for
   * |buf| bytes, whose status is returned and which fills the buffer only
   * when it succeeds.
   */
  function ReadOp(s: Sensor, bus: nat -> i32, ctx: Ctx, reg: bv8, buf: seq<bv8>): (o: ReadOutcome)
    requires WellFormed(s)
    ensures o.sensor.regs == s.regs && |o.data| == |buf|
    ensures ctx == NullCtx ==> o.ret == -1 && o.data == buf && o.sensor == s
    ensures ctx == PlatformCtx ==>
      o.ret == bus(|s.frames|) &&
      o.sensor.frames == s.frames + [Frame(DeviceAddress, [reg], |buf|)] &&
      o.data == (if o.ret == 0 then DeviceRead(s.regs, reg, |buf|) else buf)
  {
    if ctx == NullCtx then ReadOutcome(-1, buf, s)
    else
      var ret := bus(|s.frames|);
      ReadOutcome(ret, if ret == 0 then DeviceRead(s.regs, reg, |buf|) else buf,
                  Sensor(s.regs, s.frames + [Frame(DeviceAddress, [reg], |buf|)]))
  }

  /**
   * lis2dh_write_reg: -1 and nothing touched for a NULL context; otherwise one
   * transfer of [reg] ++ data (lenOut |data| + 1, lenIn |data|), whose status
   * is returned and which reaches the registers only when it succeeds.
   */
  function WriteOp(s: Sensor, bus: nat -> i32, ctx: Ctx, reg: bv8, data: seq<bv8>): (o: WriteOutcome)
    requires WellFormed(s)
    ensures WellFormed(o.sensor)
    ensures ctx == NullCtx ==> o.ret == -1 && o.sensor == s
    ensures ctx == PlatformCtx ==>
      o.ret == bus(|s.frames|) &&
      o.sensor.frames == s.frames + [Frame(DeviceAddress, [reg] + data, |data|)] &&
      o.sensor.regs == (if o.ret == 0 then DeviceWrite(s.regs, reg, data) else s.regs)
  {
    if ctx == NullCtx then WriteOutcome(-1, s)
    else
      var ret := bus(|s.frames|);
      WriteOutcome(ret, Sensor(if ret == 0 then DeviceWrite(s.regs, reg, data) else s.regs,
                               s.frames + [Frame(DeviceAddress, [reg] + data, |data|)]))
  }

  /**
   * The read-modify-write of a single-field setter (data_rate_set,
   * full_scale_set, high_pass_bandwidth_set, fifo_mode_set): read the
   * field's register and, only if that returned 0, write it back with the
   * field replaced. The result is the write's status, or the read's when it
   * failed; the registers change only by a successful write, and then only
   * in that field.
   */
  function FieldSetOp(s: Sensor, bus: nat -> i32, ctx: Ctx, f: Field, v: bv8): (o: WriteOutcome)
    requires WellFormed(s) && v <= Ones(f)
    ensures WellFormed(o.sensor)
    ensures var r := ReadOp(s, bus, ctx, Register(f), [0]);
      if r.ret != 0 then o.ret == r.ret && o.sensor == r.sensor
      else o == WriteOp(r.sensor, bus, ctx, Register(f), [SetField(s.regs[Register(f)], f, v)])
    ensures o.ret == 0 ==>
      o.sensor.regs == s.regs[Register(f) := SetField(s.regs[Register(f)], f, v)] &&
      GetField(o.sensor.regs[Register(f)], f) == v
    ensures o.ret != 0 ==> o.sensor.regs == s.regs
  {
    var r := ReadOp(s, bus, ctx, Register(f), [0]);
    if r.ret != 0 then WriteOutcome(r.ret, r.sensor)
    else
      DeviceWriteOne(s.regs, Register(f), SetField(r.data[0], f, v));
      WriteOp(r.sensor, bus, ctx, Register(f), [SetField(r.data[0], f, v)])
  }

  /**
   * lis2dh_operating_mode_set: read CTRL_REG1, then (only if that returned 0)
   * CTRL_REG4; with both read, write CTRL_REG1 with the mode's lpen bit and,
   * only if that write returned 0, CTRL_REG4 with its hr bit.
   */
  function OperatingModeSetOp(s: Sensor, bus: nat -> i32, ctx: Ctx, m: OperatingMode): (o: WriteOutcome)
    requires WellFormed(s)
    ensures WellFormed(o.sensor)
  {
    var r1 := ReadOp(s, bus, ctx, CtrlReg1, [0]);
    if r1.ret != 0 then WriteOutcome(r1.ret, r1.sensor)
    else
      var r4 := ReadOp(r1.sensor, bus, ctx, CtrlReg4, [0]);
      if r4.ret != 0 then WriteOutcome(r4.ret, r4.sensor)
      else
        var w1 := WriteOp(r4.sensor, bus, ctx, CtrlReg1, [SetField(r1.data[0], Lpen, ModeBits(m).0)]);
        if w1.ret != 0 then w1
        else WriteOp(w1.sensor, bus, ctx, CtrlReg4, [SetField(r4.data[0], Hr, ModeBits(m).1)])
  }

  /**
   * What lis2dh_operating_mode_set does to the sensor: with a NULL context
   * nothing; otherwise up to four transfers in the order read CTRL_REG1, read
   * CTRL_REG4, write CTRL_REG1, write CTRL_REG4, each made only if the one
   * before returned 0. On success the two registers hold the mode's bits and
   * everything else in them is kept; on failure CTRL_REG4 is never written
   * and nothing changes unless the CTRL_REG1 write went through.
   */
  lemma OperatingModeSetEffect(s: Sensor, bus: nat -> i32, ctx: Ctx, m: OperatingMode)
    requires WellFormed(s)
    ensures var o := OperatingModeSetOp(s, bus, ctx, m);
      var n := |s.frames|;
      var b1 := SetField(s.regs[CtrlReg1], Lpen, ModeBits(m).0);
      var b4 := SetField(s.regs[CtrlReg4], Hr, ModeBits(m).1);
      (ctx == NullCtx ==> o.ret == -1 && o.sensor == s) &&
      (ctx == PlatformCtx ==>
        o.sensor.frames[..n] == s.frames && |o.sensor.frames| > n &&
        o.sensor.frames[n] == Frame(DeviceAddress, [CtrlReg1], 1) &&
        (bus(n) != 0 ==> o.ret == bus(n) && |o.sensor.frames| == n + 1 && o.sensor.regs == s.regs) &&
        (bus(n) == 0 && bus(n + 1) != 0 ==>
          o.ret == bus(n + 1) && |o.sensor.frames| == n + 2 && o.sensor.regs == s.regs) &&
        (bus(n) == 0 && bus(n + 1) == 0 ==>
          o.sensor.frames[n + 1] == Frame(DeviceAddress, [CtrlReg4], 1) &&
          o.sensor.frames[n + 2] == Frame(DeviceAddress, [CtrlReg1, b1], 1)) &&
        (bus(n) == 0 && bus(n + 1) == 0 && bus(n + 2) != 0 ==>
          o.ret == bus(n + 2) && |o.sensor.frames| == n + 3 && o.sensor.regs == s.regs) &&
        (bus(n) == 0 && bus(n + 1) == 0 && bus(n + 2) == 0 ==>
          o.ret == bus(n + 3) && |o.sensor.frames| == n + 4 &&
          o.sensor.frames[n + 3] == Frame(DeviceAddress, [CtrlReg4, b4], 1) &&
          o.sensor.regs == (if o.ret == 0 then s.regs[CtrlReg1 := b1][CtrlReg4 := b4] else s.regs[CtrlReg1 := b1])))
  {
    if ctx == PlatformCtx {
      var n := |s.frames|;
      if bus(n) == 0 && bus(n + 1) == 0 {
        OperatingModeSetWrites(s, bus, m);
      } else {
        OperatingModeSetReadFails(s, bus, m);
      }
    }
  }

  /** The part of OperatingModeSetEffect where one of the two reads fails. */
  lemma OperatingModeSetReadFails(s: Sensor, bus: nat -> i32, m: OperatingMode)
    requires WellFormed(s) && (bus(|s.frames|) != 0 || bus(|s.frames| + 1) != 0)
    ensures var o := OperatingModeSetOp(s, bus, PlatformCtx, m);
      var n := |s.frames|;
      o.sensor.frames[..n] == s.frames && |o.sensor.frames| > n &&
      o.sensor.frames[n] == Frame(DeviceAddress, [CtrlReg1], 1) && o.sensor.regs == s.regs &&
      (bus(n) != 0 ==> o.ret == bus(n) && |o.sensor.frames| == n + 1) &&
      (bus(n) == 0 ==> o.ret == bus(n + 1) && |o.sensor.frames| == n + 2)
  {
  }

  /** The part of OperatingModeSetEffect where both reads succeed. */
  lemma OperatingModeSetWrites(s: Sensor, bus: nat -> i32, m: OperatingMode)
    requires WellFormed(s) && bus(|s.frames|) == 0 && bus(|s.frames| + 1) == 0
    ensures var o := OperatingModeSetOp(s, bus, PlatformCtx, m);
      var n := |s.frames|;
      var b1 := SetField(s.regs[CtrlReg1], Lpen, ModeBits(m).0);
      var b4 := SetField(s.regs[CtrlReg4], Hr, ModeBits(m).1);
      o.sensor.frames[..n] == s.frames && |o.sensor.frames| > n + 2 &&
      o.sensor.frames[n] == Frame(DeviceAddress, [CtrlReg1], 1) &&
      o.sensor.frames[n + 1] == Frame(DeviceAddress, [CtrlReg4], 1) &&
      o.sensor.frames[n + 2] == Frame(DeviceAddress, [CtrlReg1, b1], 1) &&
      (bus(n + 2) != 0 ==> o.ret == bus(n + 2) && |o.sensor.frames| == n + 3 && o.sensor.regs == s.regs) &&
      (bus(n + 2) == 0 ==>
        o.ret == bus(n + 3) && |o.sensor.frames| == n + 4 &&
        o.sensor.frames[n + 3] == Frame(DeviceAddress, [CtrlReg4, b4], 1) &&
        o.sensor.regs == (if o.ret == 0 then s.regs[CtrlReg1 := b1][CtrlReg4 := b4] else s.regs[CtrlReg1 := b1]))
  {
    var b1 := SetField(s.regs[CtrlReg1], Lpen, ModeBits(m).0);
    var b4 := SetField(s.regs[CtrlReg4], Hr, ModeBits(m).1);
    DeviceWriteOne(s.regs, CtrlReg1, b1);
    DeviceWriteOne(s.regs[CtrlReg1 := b1], CtrlReg4, b4);
  }

  /**
   * The round trip of the operating mode: once lis2dh_operating_mode_set has
   * returned 0, the decoding lis2dh_operating_mode_get applies to the two
   * registers gives the mode back.
   */
  lemma OperatingModeRoundTrip(s: Sensor, bus: nat -> i32, ctx: Ctx, m: OperatingMode)
    requires WellFormed(s)
    requires OperatingModeSetOp(s, bus, ctx, m).ret == 0
    ensures var regs := OperatingModeSetOp(s, bus, ctx, m).sensor.regs;
      DecodeOperatingMode(GetField(regs[CtrlReg1], Lpen), GetField(regs[CtrlReg4], Hr)) == m
  {
    OperatingModeSetEffect(s, bus, ctx, m);
  }

  /** After data_rate_set(r) has returned 0, data_rate_get's decoding reads r back; so for full scale. */
  lemma DataRateRoundTrip(s: Sensor, bus: nat -> i32, ctx: Ctx, r: DataRate, fs: FullScale)
    requires WellFormed(s)
    ensures var o := FieldSetOp(s, bus, ctx, Odr, DataRateCode(r));
      o.ret == 0 ==> DecodeDataRate(GetField(o.sensor.regs[CtrlReg1], Odr)) == r
    ensures var o := FieldSetOp(s, bus, ctx, Fs, FullScaleCode(fs));
      o.ret == 0 ==> DecodeFullScale(GetField(o.sensor.regs[CtrlReg4], Fs)) == fs
  {
  }

  /**
   * A read of two registers from OUT_TEMP_L without the auto-increment bit
   * returns OUT_TEMP_L twice; with the bit set it returns OUT_TEMP_L, OUT_TEMP_H.
   */
  lemma TemperatureReadRepeatsLowByte(regs: seq<bv8>)
    requires |regs| == RegisterCount
    ensures DeviceRead(regs, OutTempL, 2) == [regs[OutTempL], regs[OutTempL]]
    ensures DeviceRead(regs, OutTempL | AutoIncrement, 2) == [regs[OutTempL], regs[OutTempL + 1]]
  {
  }

  /**
   * A read of six registers from OUT_X_L with the auto-increment bit returns
   * OUT_X_L, OUT_X_H, OUT_Y_L, OUT_Y_H, OUT_Z_L, OUT_Z_H in that order.
   */
  lemma AccelerationReadsOutputRegisters(regs: seq<bv8>)
    requires |regs| == RegisterCount
    ensures DeviceRead(regs, OutXL | AutoIncrement, 6) == regs[0x28..0x2E]
  {
    assert OutXL | AutoIncrement == 0xA8;
  }

  /**
   * A sensor whose temperature word is 0x0100 (OUT_TEMP_H = 1, OUT_TEMP_L = 0):
   * the read as written yields the bytes 0, 0 and so the word 0; the read with
   * auto-increment yields 0, 1 and so the word 256.
   */
  lemma TemperatureCounterexample()
    ensures var regs := seq(128, k requires 0 <= k < 128 => if k == 0x0D then 1 as bv8 else 0);
      DeviceRead(regs, OutTempL, 2) == [0, 0] && DeviceRead(regs, OutTempL | AutoIncrement, 2) == [0, 1]
    ensures Int16FromBytes(0, 0) == 0 && Int16FromBytes(0, 1) == 256
  {
    var regs := seq(128, k requires 0 <= k < 128 => if k == 0x0D then 1 as bv8 else 0);
    TemperatureReadRepeatsLowByte(regs);
    assert regs[OutTempL] == 0 && regs[OutTempL + 1] == 1;
  }

  // ---------------------------------------------------------------------------
  // The driver, in place
  // ---------------------------------------------------------------------------

  class Imu {
    /** msgOutImu: the frame buffer of platform_write and platform_read. */
    const msgOut: array<bv8>
    /** The fields of imuData the platform functions set. */
    var address: u8
    var lenOut: nat
    var lenIn: nat
    /** The sensor's register file. */
    var regs: seq<bv8>
    /** Every I2C transfer made so far, in order. */
    var frames: seq<Frame>
    /** The status the I2C driver returns for the n-th transfer. */
    const bus: nat -> i32

    function State(): Sensor
      reads this
    {
      Sensor(regs, frames)
    }

    /** The register file has 128 bytes, and imuData and msgOutImu describe the last transfer. */
    ghost predicate Valid()
      reads this, msgOut
    {
      msgOut.Length == 64 && |regs| == RegisterCount &&
      (frames != [] ==>
        var last := frames[|frames| - 1];
        address == last.address && lenOut == |last.out| && lenIn == last.lenIn &&
        1 <= lenOut <= 64 && msgOut[..lenOut] == last.out)
    }

    constructor (bus: nat -> i32, regs: seq<bv8>)
      requires |regs| == RegisterCount
      ensures Valid() && fresh(msgOut) && this.regs == regs && frames == [] && this.bus == bus
    {
      msgOut := new bv8[64](_ => 0);
      address := 0;
      lenOut := 0;
      lenIn := 0;
      this.regs := regs;
      frames := [];
      this.bus := bus;
    }

    /** platform_write: [reg] ++ data to address 0x19 with lenOut = len + 1 and lenIn = len. */
    method PlatformWrite(reg: bv8, data: seq<bv8>) returns (ret: i32)
      requires Valid() && |data| < 64
      modifies msgOut, this`address, this`lenOut, this`lenIn, this`regs, this`frames
      ensures Valid()
      ensures lenOut == |data| + 1 && lenIn == |data| && address == DeviceAddress
      ensures msgOut[..lenOut] == [reg] + data
      ensures WriteOutcome(ret, State()) == WriteOp(old(State()), bus, PlatformCtx, reg, data)
    {
      msgOut[0] := reg;
      var i := 0;
      while i < |data|
        invariant 0 <= i <= |data|
        modifies msgOut
        invariant msgOut[0] == reg && msgOut[1..i + 1] == data[..i]
      {
        msgOut[i + 1] := data[i];
        i := i + 1;
      }
      address := DeviceAddress;
      lenOut := |data| + 1;
      lenIn := |data|;
      assert data[..i] == data;
      assert msgOut[..lenOut] == [reg] + msgOut[1..i + 1];
      ret := bus(|frames|);
      frames := frames + [Frame(address, msgOut[..lenOut], lenIn)];
      if ret == 0 {
        regs := DeviceWrite(regs, reg, data);
      }
    }

    /**
     * platform_read: only [reg] is sent (lenOut = 1) and len bytes are asked
     * for into the caller's buffer, which holds `buf` beforehand.
     */
    method PlatformRead(reg: bv8, buf: seq<bv8>) returns (ret: i32, data: seq<bv8>)
      requires Valid() && |buf| < 0x1_0000
      modifies msgOut, this`address, this`lenOut, this`lenIn, this`frames
      ensures Valid()
      ensures lenOut == 1 && lenIn == |buf| && address == DeviceAddress
      ensures msgOut[..] == old(msgOut[..])[0 := reg]
      ensures ReadOutcome(ret, data, State()) == ReadOp(old(State()), bus, PlatformCtx, reg, buf)
    {
      msgOut[0] := reg;
      address := DeviceAddress;
      lenIn := |buf|;
      lenOut := 1;
      ret := bus(|frames|);
      frames := frames + [Frame(address, [reg], lenIn)];
      data := if ret == 0 then DeviceRead(regs, reg, |buf|) else buf;
    }

    /** lis2dh_read_reg: -1 for a NULL context, with nothing touched; otherwise platform_read. */
    method ReadReg(ctx: Ctx, reg: bv8, buf: seq<bv8>) returns (ret: i32, data: seq<bv8>)
      requires Valid() && |buf| < 0x1_0000
      modifies msgOut, this`address, this`lenOut, this`lenIn, this`frames
      ensures Valid()
      ensures ReadOutcome(ret, data, State()) == ReadOp(old(State()), bus, ctx, reg, buf)
      ensures ctx == NullCtx ==> unchanged(this) && unchanged(msgOut)
    {
      if ctx == NullCtx {
        return -1, buf;
      }
      ret, data := PlatformRead(reg, buf);
    }

    /** lis2dh_write_reg: -1 for a NULL context, with nothing touched; otherwise platform_write. */
    method WriteReg(ctx: Ctx, reg: bv8, data: seq<bv8>) returns (ret: i32)
      requires Valid() && |data| < 64
      modifies msgOut, this`address, this`lenOut, this`lenIn, this`regs, this`frames
      ensures Valid()
      ensures WriteOutcome(ret, State()) == WriteOp(old(State()), bus, ctx, reg, data)
      ensures ctx == NullCtx ==> unchanged(this) && unchanged(msgOut)
    {
      if ctx == NullCtx {
        return -1;
      }
      ret := PlatformWrite(reg, data);
    }

    /** The read-modify-write every single-field setter performs. */
    method UpdateField(ctx: Ctx, f: Field, v: bv8) returns (ret: i32)
      requires Valid() && v <= Ones(f)
      modifies msgOut, this`address, this`lenOut, this`lenIn, this`regs, this`frames
      ensures Valid()
      ensures WriteOutcome(ret, State()) == FieldSetOp(old(State()), bus, ctx, f, v)
    {
      var b;
      ret, b := ReadReg(ctx, Register(f), [0]);
      if ret == 0 {
        ret := WriteReg(ctx, Register(f), [SetField(b[0], f, v)]);
      }
    }

    /** The read and decode every single-field getter performs; the local the field is read into starts as `stale`. */
    method ReadField(ctx: Ctx, f: Field, stale: bv8) returns (ret: i32, v: bv8)
      requires Valid()
      modifies msgOut, this`address, this`lenOut, this`lenIn, this`frames
      ensures Valid()
      ensures var o := ReadOp(old(State()), bus, ctx, Register(f), [stale]);
        ret == o.ret && State() == o.sensor && v == GetField(o.data[0], f)
      ensures ret == 0 ==> v == GetField(regs[Register(f)], f)
    {
      var b;
      ret, b := ReadReg(ctx, Register(f), [stale]);
      v := GetField(b[0], f);
    }

    /** lis2dh_data_rate_set. */
    method DataRateSet(ctx: Ctx, r: DataRate) returns (ret: i32)
      requires Valid()
      modifies msgOut, this`address, this`lenOut, this`lenIn, this`regs, this`frames
      ensures Valid()
      ensures WriteOutcome(ret, State()) == FieldSetOp(old(State()), bus, ctx, Odr, DataRateCode(r))
    {
      ret := UpdateField(ctx, Odr, DataRateCode(r));
    }

    /** lis2dh_data_rate_get; on a failed read the rate decodes the uninitialised local `stale`. */
    method DataRateGet(ctx: Ctx, stale: bv8) returns (ret: i32, r: DataRate)
      requires Valid()
      modifies msgOut, this`address, this`lenOut, this`lenIn, this`frames
      ensures Valid()
      ensures var o := ReadOp(old(State()), bus, ctx, CtrlReg1, [stale]);
        ret == o.ret && State() == o.sensor && r == DecodeDataRate(GetField(o.data[0], Odr))
    {
      var code;
      ret, code := ReadField(ctx, Odr, stale);
      r := DecodeDataRate(code);
    }

    /** lis2dh_full_scale_set. */
    method FullScaleSet(ctx: Ctx, fs: FullScale) returns (ret: i32)
      requires Valid()
      modifies msgOut, this`address, this`lenOut, this`lenIn, this`regs, this`frames
      ensures Valid()
      ensures WriteOutcome(ret, State()) == FieldSetOp(old(State()), bus, ctx, Fs, FullScaleCode(fs))
    {
      ret := UpdateField(ctx, Fs, FullScaleCode(fs));
    }

    /** lis2dh_full_scale_get. */
    method FullScaleGet(ctx: Ctx, stale: bv8) returns (ret: i32, fs: FullScale)
      requires Valid()
      modifies msgOut, this`address, this`lenOut, this`lenIn, this`frames
      ensures Valid()
      ensures var o := ReadOp(old(State()), bus, ctx, CtrlReg4, [stale]);
        ret == o.ret && State() == o.sensor && fs == DecodeFullScale(GetField(o.data[0], Fs))
    {
      var code;
      ret, code := ReadField(ctx, Fs, stale);
      fs := DecodeFullScale(code);
    }

    /** lis2dh_high_pass_bandwidth_set. */
    method HighPassBandwidthSet(ctx: Ctx, h: HighPassCutoff) returns (ret: i32)
      requires Valid()
      modifies msgOut, this`address, this`lenOut, this`lenIn, this`regs, this`frames
      ensures Valid()
      ensures WriteOutcome(ret, State()) == FieldSetOp(old(State()), bus, ctx, Hpcf, HighPassCutoffCode(h))
    {
      ret := UpdateField(ctx, Hpcf, HighPassCutoffCode(h));
    }

    /** lis2dh_high_pass_bandwidth_get. */
    method HighPassBandwidthGet(ctx: Ctx, stale: bv8) returns (ret: i32, h: HighPassCutoff)
      requires Valid()
      modifies msgOut, this`address, this`lenOut, this`lenIn, this`frames
      ensures Valid()
      ensures var o := ReadOp(old(State()), bus, ctx, CtrlReg2, [stale]);
        ret == o.ret && State() == o.sensor && h == DecodeHighPassCutoff(GetField(o.data[0], Hpcf))
    {
      var code;
      ret, code := ReadField(ctx, Hpcf, stale);
      h := DecodeHighPassCutoff(code);
    }

    /** lis2dh_fifo_mode_set. */
    method FifoModeSet(ctx: Ctx, m: FifoMode) returns (ret: i32)
      requires Valid()
      modifies msgOut, this`address, this`lenOut, this`lenIn, this`regs, this`frames
      ensures Valid()
      ensures WriteOutcome(ret, State()) == FieldSetOp(old(State()), bus, ctx, Fm, FifoModeCode(m))
    {
      ret := UpdateField(ctx, Fm, FifoModeCode(m));
    }

    /** lis2dh_fifo_mode_get. */
    method FifoModeGet(ctx: Ctx, stale: bv8) returns (ret: i32, m: FifoMode)
      requires Valid()
      modifies msgOut, this`address, this`lenOut, this`lenIn, this`frames
      ensures Valid()
      ensures var o := ReadOp(old(State()), bus, ctx, FifoCtrlReg, [stale]);
        ret == o.ret && State() == o.sensor && m == DecodeFifoMode(GetField(o.data[0], Fm))
    {
      var code;
      ret, code := ReadField(ctx, Fm, stale);
      m := DecodeFifoMode(code);
    }

    /** lis2dh_xl_data_ready_get: the zyxda bit of STATUS_REG. */
    method XlDataReadyGet(ctx: Ctx, stale: bv8) returns (ret: i32, ready: bv8)
      requires Valid()
      modifies msgOut, this`address, this`lenOut, this`lenIn, this`frames
      ensures Valid()
      ensures ready <= 1
      ensures var o := ReadOp(old(State()), bus, ctx, StatusReg, [stale]);
        ret == o.ret && State() == o.sensor && ready == GetField(o.data[0], Zyxda)
    {
      ret, ready := ReadField(ctx, Zyxda, stale);
    }

    /** lis2dh_operating_mode_set. */
    method OperatingModeSet(ctx: Ctx, m: OperatingMode) returns (ret: i32)
      requires Valid()
      modifies msgOut, this`address, this`lenOut, this`lenIn, this`regs, this`frames
      ensures Valid()
      ensures WriteOutcome(ret, State()) == OperatingModeSetOp(old(State()), bus, ctx, m)
    {
      var reg1, reg4 := [0], [0];
      ret, reg1 := ReadReg(ctx, CtrlReg1, reg1);
      if ret == 0 {
        ret, reg4 := ReadReg(ctx, CtrlReg4, reg4);
      }
      if ret == 0 {
        reg1 := [SetField(reg1[0], Lpen, ModeBits(m).0)];
        reg4 := [SetField(reg4[0], Hr, ModeBits(m).1)];
        ret := WriteReg(ctx, CtrlReg1, reg1);
      }
      if ret == 0 {
        ret := WriteReg(ctx, CtrlReg4, reg4);
      }
    }

    /**
     * lis2dh_operating_mode_get. `val` is what the caller's variable holds; it
     * is kept when CTRL_REG1 cannot be read. Once CTRL_REG1 has been read the
     * mode is decoded even if reading CTRL_REG4 fails, from the local `stale4`.
     */
    method OperatingModeGet(ctx: Ctx, val: OperatingMode, stale1: bv8, stale4: bv8)
      returns (ret: i32, m: OperatingMode)
      requires Valid()
      modifies msgOut, this`address, this`lenOut, this`lenIn, this`frames
      ensures Valid()
      ensures var r1 := ReadOp(old(State()), bus, ctx, CtrlReg1, [stale1]);
        if r1.ret != 0 then ret == r1.ret && State() == r1.sensor && m == val
        else
          var r4 := ReadOp(r1.sensor, bus, ctx, CtrlReg4, [stale4]);
          ret == r4.ret && State() == r4.sensor &&
          m == DecodeOperatingMode(GetField(r1.data[0], Lpen), GetField(r4.data[0], Hr))
      ensures ret == 0 ==> m == DecodeOperatingMode(GetField(regs[CtrlReg1], Lpen), GetField(regs[CtrlReg4], Hr))
    {
      var reg1, reg4;
      m := val;
      ret, reg1 := ReadReg(ctx, CtrlReg1, [stale1]);
      if ret == 0 {
        ret, reg4 := ReadReg(ctx, CtrlReg4, [stale4]);
        m := DecodeOperatingMode(GetField(reg1[0], Lpen), GetField(reg4[0], Hr));
      }
    }

    /**
     * lis2dh_acceleration_raw_get: six bytes from OUT_X_L with the
     * auto-increment bit, assembled as three little-endian int16 words.
     */
    method AccelerationRawGet(ctx: Ctx, stale: seq<bv8>) returns (ret: i32, x: i16, y: i16, z: i16)
      requires Valid() && |stale| == 6
      modifies msgOut, this`address, this`lenOut, this`lenIn, this`frames
      ensures Valid()
      ensures var o := ReadOp(old(State()), bus, ctx, OutXL | AutoIncrement, stale);
        ret == o.ret && State() == o.sensor &&
        x == Int16FromBytes(o.data[0] as int, o.data[1] as int) &&
        y == Int16FromBytes(o.data[2] as int, o.data[3] as int) &&
        z == Int16FromBytes(o.data[4] as int, o.data[5] as int)
      ensures ret == 0 ==>
        x == Int16FromBytes(regs[0x28] as int, regs[0x29] as int) &&
        y == Int16FromBytes(regs[0x2A] as int, regs[0x2B] as int) &&
        z == Int16FromBytes(regs[0x2C] as int, regs[0x2D] as int)
    {
      var buff;
      AccelerationReadsOutputRegisters(regs);
      ret, buff := ReadReg(ctx, OutXL | AutoIncrement, stale);
      x := Int16FromBytes(buff[0] as int, buff[1] as int);
      y := Int16FromBytes(buff[2] as int, buff[3] as int);
      z := Int16FromBytes(buff[4] as int, buff[5] as int);
    }

    /**
     * lis2dh_temperature_raw_get as written: two bytes from OUT_TEMP_L without
     * the auto-increment bit, so both bytes of the word are OUT_TEMP_L.
     */
    method TemperatureRawGet(ctx: Ctx, stale: seq<bv8>) returns (ret: i32, t: i16)
      requires Valid() && |stale| == 2
      modifies msgOut, this`address, this`lenOut, this`lenIn, this`frames
      ensures Valid()
      ensures var o := ReadOp(old(State()), bus, ctx, OutTempL, stale);
        ret == o.ret && State() == o.sensor && t == Int16FromBytes(o.data[0] as int, o.data[1] as int)
      ensures ret == 0 ==> t == Int16FromBytes(regs[OutTempL] as int, regs[OutTempL] as int)
    {
      var buff;
      ret, buff := ReadReg(ctx, OutTempL, stale);
      t := Int16FromBytes(buff[0] as int, buff[1] as int);
    }

    /**
     * The temperature read with the auto-increment bit set, as
     * acceleration_raw_get does: the word OUT_TEMP_H:OUT_TEMP_L.
     */
    method TemperatureRawGetIncrement(ctx: Ctx, stale: seq<bv8>) returns (ret: i32, t: i16)
      requires Valid() && |stale| == 2
      modifies msgOut, this`address, this`lenOut, this`lenIn, this`frames
      ensures Valid()
      ensures var o := ReadOp(old(State()), bus, ctx, OutTempL | AutoIncrement, stale);
        ret == o.ret && State() == o.sensor && t == Int16FromBytes(o.data[0] as int, o.data[1] as int)
      ensures ret == 0 ==> t == Int16FromBytes(regs[OutTempL] as int, regs[OutTempL + 1] as int)
    {
      var buff;
      ret, buff := ReadReg(ctx, OutTempL | AutoIncrement, stale);
      t := Int16FromBytes(buff[0] as int, buff[1] as int);
    }
  }
}
