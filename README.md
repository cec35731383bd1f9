# HelMate firmware core, modelled in Dafny

HelMate is firmware for a SAMD21-based smart bike helmet. This project models its stateful core and the algorithms inside it. Each source file is one Dafny module:

| module | source | what it is |
|---|---|---|
| `Machine` | — | C integer widths and operators: 32-bit wrap-around, truncating division, casts to `uint8_t` and `int16_t` |
| `BootMain` | `A12G/Bootloader/src/BootMain.c` | the bootloader's firmware-update engine |
| `LedStrip` | `A10G_cloud/Application/src/LED_Strip/APA102C_LED_Strip.c` | the I2C packetiser of the APA102C LED stick |
| `Lis2dh` | `A12G/Application/src/IMU/lis2dh/lis2dh_reg.c` | the LIS2DH accelerometer register codec and its I2C framing |
| `CliThread` | `A07G_exploring-the-cli/Application/src/CliThread/CliThread.c` | the serial console's line editor and two formatting commands |
| `LedTask` | `A12G/Application/src/LED_Task/led_task.c` | the bike-light task: modes, turn signals, stop light, theft alert |
| `HapticTask` | `A12G/Application/src/HapticTask/haptic_task.c` | the choice of vibration motor |
| `BlinkLed` | `A06P/concurrency-example/concurrency-challenge/src/led.c` | the blinking LED with a three-step frequency rotation |
| `Button` | `A06P/Concurrency_Challenge/Concurrency_Challenge_FreeRTOS/Porting_FreeRTOS/src/BUTTON/button.c` | the button hold detector |

## How the modules are built

Code that updates statics and buffers in place is modelled as a Dafny `class`:

- `Bootloader`, `LedStick`, `Imu`, `Console`, `BikeLight`, `LedBlinker` and `ButtonDetector` keep the C statics as fields.
- The flash, the frame buffers and the CLI line buffers are arrays.

Each method is proved against a pure function over the state, in one of two forms:

- `ensures Abs() == Step(old(Abs()), ...)`
- `ensures nvm[..] == FlashBin(...).mem`

The properties the source promises are proved as lemmas about those functions.

Hardware and RTOS calls become recorded traces or oracles:

- **Recorded traces:**
  - I2C transfers: `sent`, `frames`
  - LED driver calls and task delays: `cmds`
  - storage, NVM, CRC and console calls: `calls`
- **Oracles:**
  - the status each I2C transfer returns (`bus`)
  - the NVM, DSU, f_read and f_unlink fault model (`Hw`)
  - the CRC function (`crc`)
  - the command interpreter's output (`interpret`)
- **Tick reads:** each read of the tick count is an explicit input.

## Model

| member | source | states |
|---|---|---|
| Machine.Sub32 | A06P/Concurrency_Challenge/Concurrency_Challenge_FreeRTOS/Porting_FreeRTOS/src/BUTTON/button.c:64 | uint32_t subtraction: the difference when it is non-negative, otherwise the difference plus 2^32 |
| Machine.Wrap32 | A10G_cloud/Application/src/LED_Strip/APA102C_LED_Strip.c:88 | storing an int32_t status into a uint32_t: the value in [0, 2^32) congruent to it mod 2^32, itself when already in range |
| Machine.ToInt16 | A12G/Application/src/IMU/lis2dh/lis2dh_reg.c:946-951 | the int16_t cast: the unique value in [-2^15, 2^15) congruent to its argument mod 2^16 |
| Machine.ToU8 | A12G/Application/src/LED_Task/led_task.c:154 | the uint8_t cast: the unique value in [0, 256) congruent to its argument mod 256 |
| Machine.TruncDiv | A12G/Application/src/LED_Task/led_task.c:154 | C division rounds toward zero: for a positive divisor the quotient is the floor of a/b when a ≥ 0 and the ceiling when a < 0 |
| BootMain.RowAddress | A12G/Bootloader/src/BootMain.c:29-31 | every row of the 360-row loop lies in [0x12000, 0x12000 + 360·256) (also line 432) |
| BootMain.PageAddress | A12G/Bootloader/src/BootMain.c:376-386 | each of a row's four 64-byte pages lies inside its row |
| BootMain.EraseNvmOutcome | A12G/Bootloader/src/BootMain.c:394-413 | erase_nvm reports success exactly when the primitive did, and then the row reads all 0xFF; a failed erase leaves the flash as it was and is reported with the primitive's code when the row reads all 0xFF, as STATUS_ABORTED otherwise |
| BootMain.EraseNvmFrame | A12G/Bootloader/src/BootMain.c:394-413 | erase_nvm changes no byte outside its row |
| BootMain.FirstFailingPage | A12G/Bootloader/src/BootMain.c:379-385 | the first page whose write fails: all earlier writes succeed, and it fails unless it is 4 |
| BootMain.WriteNvmOutcome | A12G/Bootloader/src/BootMain.c:376-386 | write_nvm returns STATUS_OK iff all four page writes succeed; it changes and targets only its own row; on an erased row with every write succeeding, the row holds the buffer |
| BootMain.WriteNvmStopsAtFailure | A12G/Bootloader/src/BootMain.c:379-385 | write_nvm returns the code of the first failing page and issues no later page write |
| BootMain.PerformNvmCrc | A12G/Bootloader/src/BootMain.c:333-365 | the CRC check never changes the flash |
| BootMain.PerformNvmCrcVerdict | A12G/Bootloader/src/BootMain.c:333-365 | with both CRC calls succeeding, OK iff CRC(buffer) = CRC(row), so a row equal to the buffer passes; if only the row's CRC call fails, OK iff CRC(buffer) = 0; if the buffer's CRC call fails, both results stay 0 and the row passes whatever it holds |
| BootMain.CrcFenceBits | A12G/Bootloader/src/BootMain.c:339-342 | the erratum fence clears bits 0x30000 before the buffer CRC, sets 0x20000 after it, and leaves every other bit unchanged |
| BootMain.ReadRow | A12G/Bootloader/src/BootMain.c:434-440 | f_read of a row copies up to 256 remaining bytes of the binary to the front of the buffer and advances the cursor by that count; the rest of the buffer keeps the previous row's bytes; a failed read changes nothing |
| BootMain.PassIsEraseThenWrite | A12G/Bootloader/src/BootMain.c:439-450 | the byte-wise description of one pass is exactly erase_nvm followed by write_nvm |
| BootMain.CleanRowInstalls | A12G/Bootloader/src/BootMain.c:439-450 | on a row whose hardware does not fail, erase then write leaves exactly the buffer in the row |
| BootMain.CleanRowVerifies | A12G/Bootloader/src/BootMain.c:439-457 | on such a row, the verify of that pass returns STATUS_OK |
| BootMain.RowCallsInRow | A12G/Bootloader/src/BootMain.c:431-465 | one pass erases and writes only inside its own row |
| BootMain.FlashKeepsOtherRows | A12G/Bootloader/src/BootMain.c:431-465 | rows m..n-1 of the loop change no byte outside their own address range |
| BootMain.FlashInstallsBuffers | A12G/Bootloader/src/BootMain.c:431-465 | every clean row ends up holding the buffer its own read left |
| BootMain.FlashCallsInAppRegion | A12G/Bootloader/src/BootMain.c:431-465 | no erase or page write of the loop targets an address below 0x12000 or past the 360th row (also lines 29-31) |
| BootMain.LastRowDecidesStatus | A12G/Bootloader/src/BootMain.c:457 | the loop returns only the last row's verify status: when the last row is clean the result is STATUS_OK whatever failed before (also line 468) |
| BootMain.ReadsAdvance | A12G/Bootloader/src/BootMain.c:434-440 | reads that do not fail advance the cursor 256 bytes per row, up to the end of the binary |
| BootMain.FullRowRead | A12G/Bootloader/src/BootMain.c:434-440 | a row lying wholly inside the binary is read whole from offset 256·row |
| BootMain.ReadPastEnd | A12G/Bootloader/src/BootMain.c:431-440 | past the end of the binary a row gets the buffer of the row before, because size_of_bin is never consulted |
| BootMain.RowsMakeRegion | A12G/Bootloader/src/BootMain.c:29-31 | the rows stitched together make the application region |
| BootMain.FaultlessIsClean | A12G/Bootloader/src/BootMain.c:394-413 | on hardware that never fails every row is clean |
| BootMain.FlashBinInstallsImage | A12G/Bootloader/src/BootMain.c:421-469 | flash_bin on hardware that never fails returns STATUS_OK, installs every row lying inside the binary, and changes nothing outside the application region |
| BootMain.FlashBinFillsRegion | A12G/Bootloader/src/BootMain.c:421-469 | with a binary of at least 360 rows, the application region ends up equal to its first 360·256 bytes |
| BootMain.FlashBinRowsPastEnd | A12G/Bootloader/src/BootMain.c:431-465 | past the end of the binary the loop goes on flashing, and each later row repeats the row before it |
| BootMain.FlashBinCallsInAppRegion | A12G/Bootloader/src/BootMain.c:421-469 | all of flash_bin's erases and page writes land in the application region, whatever fails |
| BootMain.SelectImage | A12G/Bootloader/src/BootMain.c:122-146 | a slot is chosen iff a marker exists; the chosen marker exists; B is chosen only when A's marker is absent |
| BootMain.ProbeCalls | A12G/Bootloader/src/BootMain.c:122-146 | A's marker is probed first, and B's only when A's is absent |
| BootMain.AfterUnlink | A12G/Bootloader/src/BootMain.c:129 | after f_unlink the marker is gone unless the unlink failed, and every other file on the card is kept (also line 141) |
| BootMain.MarkerConsumedOnce | A12G/Bootloader/src/BootMain.c:124-143 | the next boot chooses the same slot again iff the marker's unlink failed, whose result main ignores; with both markers present and A's consumed, B's is left for a later boot |
| BootMain.StuckMarkerReflashes | A12G/Bootloader/src/BootMain.c:124-143 | when the chosen marker's unlink fails, every later boot chooses and flashes the same slot again |
| BootMain.AbsentMarkerNeverChosen | A12G/Bootloader/src/BootMain.c:122-146 | a slot whose marker is absent is never chosen by any later boot, because main only ever removes files |
| BootMain.ConsumedMarkersFlashOnce | A12G/Bootloader/src/BootMain.c:124-143 | when both markers' unlinks succeed, no slot is chosen by two boots of any run, so each update is installed at most once ("to prevent update next reset") |
| BootMain.FlashReport | A12G/Bootloader/src/BootMain.c:153-160 | the "updated" message is printed iff flash_bin returned STATUS_OK |
| BootMain.Bootloader.constructor | A12G/Bootloader/src/BootMain.c:55-67 | the engine's globals at reset: the flash as given, a zeroed row buffer, no calls made |
| BootMain.Bootloader.EraseNvmRow | A12G/Bootloader/src/BootMain.c:394-413 | erase_nvm in place agrees with EraseNvm: status, flash and calls |
| BootMain.Bootloader.ProgramPage | A12G/Bootloader/src/BootMain.c:379-381 | one page write ANDs the page with the buffer's bytes, as ProgramPagesMem describes |
| BootMain.Bootloader.WriteNvmRow | A12G/Bootloader/src/BootMain.c:376-386 | write_nvm in place agrees with WriteNvm: status, flash and page-write calls |
| BootMain.Bootloader.PerformNvmCrcRow | A12G/Bootloader/src/BootMain.c:333-365 | perform_nvm_crc in place agrees with PerformNvmCrc, and the fence register ends as CrcFenceBits describes |
| BootMain.Bootloader.ReadNextRow | A12G/Bootloader/src/BootMain.c:434-440 | f_read in place agrees with ReadRow, and reports success iff the read did not fail |
| BootMain.Bootloader.FlashNextRow | A12G/Bootloader/src/BootMain.c:431-465 | one loop pass in place: read, erase, write, verify, as the functions describe |
| BootMain.Bootloader.FlashAllRows | A12G/Bootloader/src/BootMain.c:431-465 | the 360-row loop in place leaves the flash, status and calls that MemRows, StatusRows and CallsRows give |
| BootMain.Bootloader.FlashBinFile | A12G/Bootloader/src/BootMain.c:421-469 | flash_bin in place agrees with FlashBin: STATUS_ABORTED and no NVM call when the file cannot be opened |
| BootMain.Bootloader.ConsumeAndFlash | A12G/Bootloader/src/BootMain.c:124-131 | f_unlink of the chosen marker is called before its binary is flashed and its result is ignored: the marker is gone iff the unlink succeeded, and the flash, status and calls are flash_bin's (also lines 136-143) |
| BootMain.Bootloader.ProbeAndFlash | A12G/Bootloader/src/BootMain.c:122-146 | flashing happens iff a marker exists; with no marker, only the probes are made and the flash is unchanged; otherwise the selected marker is removed only when its unlink succeeds |
| BootMain.Bootloader.Boot | A12G/Bootloader/src/BootMain.c:110-180 | mount failure resets before any probe; with no marker, no NVM call and no status message, then the jump; otherwise unlink the marker (kept when the unlink fails), flash, report, jump |
| LedStrip.FullPacketBody | A10G_cloud/Application/src/LED_Strip/APA102C_LED_Strip.c:183-196 | full packet n carries the twelve values from index 12n |
| LedStrip.FullPacketsPayload | A10G_cloud/Application/src/LED_Strip/APA102C_LED_Strip.c:183-196 | the first k full packets carry the first 12k values, in order |
| LedStrip.FullPacketsPrefix | A10G_cloud/Application/src/LED_Strip/APA102C_LED_Strip.c:183-196 | a prefix of the full packets is the full packets of the prefix |
| LedStrip.ColorPacketsRoundTrip | A10G_cloud/Application/src/LED_Strip/APA102C_LED_Strip.c:179-215 | the bodies of one colour's packets, concatenated in order, give back the colour array exactly |
| LedStrip.ColorPacketAt | A10G_cloud/Application/src/LED_Strip/APA102C_LED_Strip.c:179-215 | each packet's offset byte is the number of values sent before it, and its count byte is its body's length |
| LedStrip.ColorPacketsShape | A10G_cloud/Application/src/LED_Strip/APA102C_LED_Strip.c:159 | floor(L/12) packets of 14 bytes, then one of L%12+2 bytes iff L%12 ≠ 0; no packet exceeds 14 bytes; offsets 12n ≤ 252 fit a byte (also lines 179-215) |
| LedStrip.PacketsOfFrames | A10G_cloud/Application/src/LED_Strip/APA102C_LED_Strip.c:500-511 | stripping the command byte from each frame gives the packets back |
| LedStrip.FramesSnoc | A10G_cloud/Application/src/LED_Strip/APA102C_LED_Strip.c:500-511 | each further packet adds exactly one frame [command] ++ packet to address 0x23 |
| LedStrip.ThreeBlocks | A10G_cloud/Application/src/LED_Strip/APA102C_LED_Strip.c:181-285 | in three consecutive blocks of frames, every frame goes to the stick and carries its block's command |
| LedStrip.IndexAllFramesOrder | A10G_cloud/Application/src/LED_Strip/APA102C_LED_Strip.c:181-285 | all red packets (0x73) come first, then green (0x74), then blue (0x75), each block reassembling its array |
| LedStrip.PerBrightness | A12G/Application/src/LED_Strip/APA102C_LED_Strip.h:48-52 | PER_BRIGHTNESS(p) is floor(31p/100), at most 31 for p ≤ 100 |
| LedStrip.LedStick.constructor | A10G_cloud/Application/src/LED_Strip/APA102C_LED_Strip.c:485 | the driver starts with no transfer made |
| LedStrip.LedStick.PlatformWrite | A10G_cloud/Application/src/LED_Strip/APA102C_LED_Strip.c:500-511 | the frame is [reg] ++ data, lenOut = len+1, to address 0x23, and the bus status is returned |
| LedStrip.LedStick.SetLedColorIndex | A10G_cloud/Application/src/LED_Strip/APA102C_LED_Strip.c:68-100 | exactly one frame, 0x71 with [number, r, g, b]; the clamps never fire |
| LedStrip.LedStick.SetLedColorAll | A10G_cloud/Application/src/LED_Strip/APA102C_LED_Strip.c:112-143 | exactly one frame, 0x72 with [r, g, b] |
| LedStrip.LedStick.SetLedBrightnessIndex | A10G_cloud/Application/src/LED_Strip/APA102C_LED_Strip.c:300-312 | exactly one frame, 0x76 with [number, brightness] unclamped |
| LedStrip.LedStick.SetLedBrightnessAll | A10G_cloud/Application/src/LED_Strip/APA102C_LED_Strip.c:335-346 | exactly one frame, 0x77 with [brightness] unclamped |
| LedStrip.LedStick.LedOff | A10G_cloud/Application/src/LED_Strip/APA102C_LED_Strip.c:363-367 | exactly one frame, 0x78 with no data byte |
| LedStrip.LedStick.FillPacket | A10G_cloud/Application/src/LED_Strip/APA102C_LED_Strip.c:183-196 | reg holds [count, start] then the count values from index start |
| LedStrip.LedStick.SendColorArray | A10G_cloud/Application/src/LED_Strip/APA102C_LED_Strip.c:179-215 | one colour's frames are exactly the packets ColorPackets describes; the error is that of the last write |
| LedStrip.LedStick.SetLedColorIndexAll | A10G_cloud/Application/src/LED_Strip/APA102C_LED_Strip.c:157-286 | the frames are red, then green, then blue, as IndexAllFrames gives; the result is the last write's status only |
| Lis2dh.GetField | A12G/Application/src/IMU/lis2dh/lis2dh_reg.c:480-536 | a field's value never exceeds its width |
| Lis2dh.SetField | A12G/Application/src/IMU/lis2dh/lis2dh_reg.c:459-469 | after setting, the field reads back the value, and every other field of the register is kept |
| Lis2dh.SetFieldSame | A12G/Application/src/IMU/lis2dh/lis2dh_reg.c:459-469 | writing back a field's own value leaves the register unchanged |
| Lis2dh.DataRateCode | A12G/Application/src/IMU/lis2dh/lis2dh_reg.c:454-536 | each rate has a code of at most 9, and decoding the code gives the rate back |
| Lis2dh.DecodeDataRate | A12G/Application/src/IMU/lis2dh/lis2dh_reg.c:530-532 | unlisted ODR codes 10 to 15 read as POWER_DOWN |
| Lis2dh.DecodeDataRateListed | A12G/Application/src/IMU/lis2dh/lis2dh_reg.c:480-536 | every listed ODR code decodes to the rate whose code it is |
| Lis2dh.FullScaleCode | A12G/Application/src/IMU/lis2dh/lis2dh_reg.c:748-806 | each full scale's code fits the field and decodes back to it |
| Lis2dh.DecodeFullScale | A12G/Application/src/IMU/lis2dh/lis2dh_reg.c:800-802 | the getter's default is 2g |
| Lis2dh.HighPassCutoffCode | A12G/Application/src/IMU/lis2dh/lis2dh_reg.c:602-667 | each cut-off's code fits the field and decodes back to it |
| Lis2dh.DecodeHighPassCutoff | A12G/Application/src/IMU/lis2dh/lis2dh_reg.c:662-664 | the getter's default is LIGHT |
| Lis2dh.FifoModeCode | A12G/Application/src/IMU/lis2dh/lis2dh_reg.c:2072-2129 | each FIFO mode's code fits the field and decodes back to it |
| Lis2dh.DecodeFifoMode | A12G/Application/src/IMU/lis2dh/lis2dh_reg.c:2124-2126 | the getter's default is BYPASS |
| Lis2dh.TwoBitDecodersListed | A12G/Application/src/IMU/lis2dh/lis2dh_reg.c:635-667 | on the 2-bit fields, decoding is one-to-one and the defaults are never reached (also lines 774-806, 2098-2129) |
| Lis2dh.ModeBits | A12G/Application/src/IMU/lis2dh/lis2dh_reg.c:355-403 | HR → (lpen 0, hr 1), NM → (0, 0), LP → (1, 0), each decoding back to its mode |
| Lis2dh.DecodeOperatingMode | A12G/Application/src/IMU/lis2dh/lis2dh_reg.c:412-444 | lpen set means LP whatever hr is; otherwise hr set means HR; otherwise NM |
| Lis2dh.Int16FromBytes | A12G/Application/src/IMU/lis2dh/lis2dh_reg.c:946-951 | the word is the little-endian two's-complement value of the two bytes |
| Lis2dh.Int16RoundTrip | A12G/Application/src/IMU/lis2dh/lis2dh_reg.c:946-951 | every int16 value survives the trip through its two output bytes |
| Lis2dh.BytesRoundTrip | A12G/Application/src/IMU/lis2dh/lis2dh_reg.c:946-951 | every pair of bytes survives the trip through the word they assemble to |
| Lis2dh.DeviceRead | A12G/Application/src/IMU/lis2dh/lis2dh_reg.c:2723-2733 | a read returns len bytes, byte k from the register that sub-address auto-increment reaches |
| Lis2dh.DeviceWriteOne | A12G/Application/src/IMU/lis2dh/lis2dh_reg.c:2698-2710 | a one-byte write replaces exactly the addressed register |
| Lis2dh.ReadOp | A12G/Application/src/IMU/lis2dh/lis2dh_reg.c:52-65 | -1 and nothing touched for a NULL context; otherwise one transfer whose status is returned and which fills the buffer only on success |
| Lis2dh.WriteOp | A12G/Application/src/IMU/lis2dh/lis2dh_reg.c:78-91 | -1 and nothing touched for a NULL context; otherwise one transfer [reg] ++ data that reaches the registers only on success |
| Lis2dh.FieldSetOp | A12G/Application/src/IMU/lis2dh/lis2dh_reg.c:459-469 | read, then write only if the read returned 0; the result is the read's error or the write's status; only the named field changes (also lines 753-763, 2077-2087) |
| Lis2dh.OperatingModeSetEffect | A12G/Application/src/IMU/lis2dh/lis2dh_reg.c:355-403 | the reads and writes happen in order, each only if the previous returned 0; on success both registers hold the mode's bits and keep every other bit; CTRL_REG4 is written only after a successful CTRL_REG1 write |
| Lis2dh.OperatingModeRoundTrip | A12G/Application/src/IMU/lis2dh/lis2dh_reg.c:355-444 | once operating_mode_set returned 0, operating_mode_get's decoding gives the mode back |
| Lis2dh.DataRateRoundTrip | A12G/Application/src/IMU/lis2dh/lis2dh_reg.c:454-536 | once data_rate_set(r) returned 0, data_rate_get yields r; likewise for full scale (also lines 748-806) |
| Lis2dh.TemperatureReadRepeatsLowByte | A12G/Application/src/IMU/lis2dh/lis2dh_reg.c:273-283 | two bytes from OUT_TEMP_L without auto-increment return OUT_TEMP_L twice; with it, OUT_TEMP_L then OUT_TEMP_H |
| Lis2dh.AccelerationReadsOutputRegisters | A12G/Application/src/IMU/lis2dh/lis2dh_reg.c:945 | six bytes from OUT_X_L with auto-increment are registers 0x28 to 0x2D in order |
| Lis2dh.TemperatureCounterexample | A12G/Application/src/IMU/lis2dh/lis2dh_reg.c:273-283 | with OUT_TEMP_H = 1 and OUT_TEMP_L = 0, the read as written gives 0 where the sensor's word is 256 |
| Lis2dh.Imu.constructor | A12G/Application/src/IMU/lis2dh/lis2dh_reg.c:2684 | the driver starts with the given register file and no transfer made |
| Lis2dh.Imu.PlatformWrite | A12G/Application/src/IMU/lis2dh/lis2dh_reg.c:2698-2710 | the frame is [reg] ++ data, lenOut = len+1, lenIn = len, to address 0x19, and it agrees with WriteOp |
| Lis2dh.Imu.PlatformRead | A12G/Application/src/IMU/lis2dh/lis2dh_reg.c:2723-2733 | only [reg] is sent (lenOut 1) and len bytes come back into the caller's buffer, agreeing with ReadOp |
| Lis2dh.Imu.ReadReg | A12G/Application/src/IMU/lis2dh/lis2dh_reg.c:52-65 | lis2dh_read_reg agrees with ReadOp and touches nothing for a NULL context |
| Lis2dh.Imu.WriteReg | A12G/Application/src/IMU/lis2dh/lis2dh_reg.c:78-91 | lis2dh_write_reg agrees with WriteOp and touches nothing for a NULL context |
| Lis2dh.Imu.UpdateField | A12G/Application/src/IMU/lis2dh/lis2dh_reg.c:459-469 | the read-modify-write in place agrees with FieldSetOp |
| Lis2dh.Imu.ReadField | A12G/Application/src/IMU/lis2dh/lis2dh_reg.c:485-488 | after a successful read, the value is the field of the register |
| Lis2dh.Imu.DataRateSet | A12G/Application/src/IMU/lis2dh/lis2dh_reg.c:454-469 | data_rate_set is FieldSetOp on ODR with the rate's code |
| Lis2dh.Imu.DataRateGet | A12G/Application/src/IMU/lis2dh/lis2dh_reg.c:480-536 | data_rate_get decodes the ODR field of CTRL_REG1 once it has been read |
| Lis2dh.Imu.FullScaleSet | A12G/Application/src/IMU/lis2dh/lis2dh_reg.c:748-763 | full_scale_set is FieldSetOp on FS with the scale's code |
| Lis2dh.Imu.FullScaleGet | A12G/Application/src/IMU/lis2dh/lis2dh_reg.c:774-806 | full_scale_get decodes the FS field of CTRL_REG4 |
| Lis2dh.Imu.HighPassBandwidthSet | A12G/Application/src/IMU/lis2dh/lis2dh_reg.c:602-619 | high_pass_bandwidth_set is FieldSetOp on HPCF |
| Lis2dh.Imu.HighPassBandwidthGet | A12G/Application/src/IMU/lis2dh/lis2dh_reg.c:635-667 | high_pass_bandwidth_get decodes the HPCF field of CTRL_REG2 |
| Lis2dh.Imu.FifoModeSet | A12G/Application/src/IMU/lis2dh/lis2dh_reg.c:2072-2087 | fifo_mode_set is FieldSetOp on FM |
| Lis2dh.Imu.FifoModeGet | A12G/Application/src/IMU/lis2dh/lis2dh_reg.c:2098-2129 | fifo_mode_get decodes the FM field of FIFO_CTRL_REG |
| Lis2dh.Imu.XlDataReadyGet | A12G/Application/src/IMU/lis2dh/lis2dh_reg.c:900-910 | the flag is STATUS_REG's zyxda bit, 0 or 1 |
| Lis2dh.Imu.OperatingModeSet | A12G/Application/src/IMU/lis2dh/lis2dh_reg.c:355-403 | operating_mode_set in place agrees with OperatingModeSetOp |
| Lis2dh.Imu.OperatingModeGet | A12G/Application/src/IMU/lis2dh/lis2dh_reg.c:412-444 | the caller's value is kept when CTRL_REG1 cannot be read; after both reads, the mode is DecodeOperatingMode of lpen and hr |
| Lis2dh.Imu.AccelerationRawGet | A12G/Application/src/IMU/lis2dh/lis2dh_reg.c:940-954 | six bytes from OUT_X_L\|0x80; axis k is the int16 word of bytes 2k and 2k+1, i.e. of OUT_k_L and OUT_k_H |
| Lis2dh.Imu.TemperatureRawGet | A12G/Application/src/IMU/lis2dh/lis2dh_reg.c:273-283 | as written: both bytes of the word are OUT_TEMP_L |
| Lis2dh.Imu.TemperatureRawGetIncrement | A12G/Application/src/IMU/lis2dh/lis2dh_reg.c:273-283 | corrected: the word is OUT_TEMP_H:OUT_TEMP_L |
| CliThread.StrLen | A07G_exploring-the-cli/Application/src/CliThread/CliThread.c:149 | strlen is the index of the first NUL, or the whole buffer when it holds none |
| CliThread.StrNCpy | A07G_exploring-the-cli/Application/src/CliThread/CliThread.c:96 | strncpy copies the C string cut to n bytes and pads with NUL (also line 148) |
| CliThread.StrLenOfPrefix | A07G_exploring-the-cli/Application/src/CliThread/CliThread.c:149 | a buffer whose first k bytes are not NUL and whose byte k is NUL has length k |
| CliThread.Initial | A07G_exploring-the-cli/Application/src/CliThread/CliThread.c:65-69 | the zeroed statics satisfy the editor's invariant |
| CliThread.StepKeepsInv | A07G_exploring-the-cli/Application/src/CliThread/CliThread.c:85-192 | every character keeps the invariant; the index never exceeds 50 and the last command stays NUL-terminated |
| CliThread.RecallInput | A07G_exploring-the-cli/Application/src/CliThread/CliThread.c:140-151 | after a recall, the input holds the last command's text, zero-padded, and the index is its length capped at 49 |
| CliThread.CarriageReturnIsEndOfLine | A07G_exploring-the-cli/Application/src/CliThread/CliThread.c:88 | '\r' ends a line exactly like '\n', so the branch that ignores '\r' is never reached (also lines 161-163) |
| CliThread.EndOfLineCommits | A07G_exploring-the-cli/Application/src/CliThread/CliThread.c:88-124 | at end of line, the last command is the input cut to 49 bytes and NUL-terminated, the interpreter sees the input, the input is zeroed, the index is 0, escape mode is off |
| CliThread.BackspaceErases | A07G_exploring-the-cli/Application/src/CliThread/CliThread.c:163-172 | backspace/DELETE writes "\b \b"; with index > 0 it decrements the index and zeroes that slot; at 0 it changes nothing |
| CliThread.TypingAppends | A07G_exploring-the-cli/Application/src/CliThread/CliThread.c:177-190 | an ordinary character is echoed and stored only while the index is below 50; excess characters are dropped |
| CliThread.EscapeStarts | A07G_exploring-the-cli/Application/src/CliThread/CliThread.c:174-177 | ESC enters escape mode at position 0 and changes nothing else |
| CliThread.EscapeSequence | A07G_exploring-the-cli/Application/src/CliThread/CliThread.c:130-156 | the first code is stored; the second ends escape mode and recalls the last command iff the codes are not "oa" in any case |
| CliThread.Snprintf | A07G_exploring-the-cli/Application/src/CliThread/CliThread.c:241-242 | snprintf writes a prefix of the text of at most n-1 bytes (also line 264) |
| CliThread.ClearTerminalScreen | A07G_exploring-the-cli/Application/src/CliThread/CliThread.c:238-244 | output is ESC "[2J" (cut to the buffer) and pdFALSE |
| CliThread.Version | A07G_exploring-the-cli/Application/src/CliThread/CliThread.c:20 | output is "Firmware Version: 0.0.1\r\n" (cut to the buffer) and pdFALSE (also lines 261-266) |
| CliThread.Memset | A07G_exploring-the-cli/Application/src/CliThread/CliThread.c:123 | memset zeroes the whole buffer (also line 146) |
| CliThread.Strlen | A07G_exploring-the-cli/Application/src/CliThread/CliThread.c:149 | the loop returns StrLen of the buffer |
| CliThread.Strncpy | A07G_exploring-the-cli/Application/src/CliThread/CliThread.c:96 | the first n bytes become StrNCpy of the source; the rest are untouched (also line 148) |
| CliThread.Console.constructor | A07G_exploring-the-cli/Application/src/CliThread/CliThread.c:65-69 | the console starts in the Initial state |
| CliThread.Console.EndLine | A07G_exploring-the-cli/Application/src/CliThread/CliThread.c:88-124 | the in-place end of line agrees with EndOfLine |
| CliThread.Console.RecallLast | A07G_exploring-the-cli/Application/src/CliThread/CliThread.c:140-151 | the in-place recall agrees with Recall |
| CliThread.Console.EscapeChar | A07G_exploring-the-cli/Application/src/CliThread/CliThread.c:130-156 | an escape-mode character in place agrees with EscapeStep |
| CliThread.Console.ProcessChar | A07G_exploring-the-cli/Application/src/CliThread/CliThread.c:85-192 | one received character in place agrees with Step |
| LedTask.MapImuInRange | A12G/Application/src/LED_Task/led_task.c:153-155 | on the IMU range, map(x, −2048, 2048, 0, 255) is floor((x+2048)·255/4096); no uint8_t truncation happens |
| LedTask.MapImuEnds | A12G/Application/src/LED_Task/led_task.c:153-155 | map(−2048) = 0 and map(2048) = 255 |
| LedTask.MapImuMonotone | A12G/Application/src/LED_Task/led_task.c:153-155 | map never decreases on the IMU range |
| LedTask.MapImuWrapsAbove | A12G/Application/src/LED_Task/led_task.c:154 | above the range the uint8_t cast wraps: 2065 mg maps to 0 |
| LedTask.StopSignal | A12G/Application/src/LED_Task/led_task.c:117-124 | zmg < −10 blinks red; anything else is solid red |
| LedTask.RangeColor | A12G/Application/src/LED_Task/led_task.c:93-101 | one setLEDColor_index per LED from first to last, in order, with the same colour |
| LedTask.TurnCommandsSides | A12G/Application/src/LED_Task/led_task.c:84-105 | TURN_LEFT clears 7..9 then sets 0..2; TURN_RIGHT clears 0..2 then sets 7..9; amber when lit, dark otherwise |
| LedTask.AlertLatch | A12G/Application/src/LED_Task/led_task.c:204-216 | in lock mode the alert is raised iff it was already or some axis exceeds 1100; bike and fun mode lower it; mode and direction are kept (also line 196) |
| LedTask.LockModeLights | A12G/Application/src/LED_Task/led_task.c:205-213 | a raised alert blinks red; the pass that raises it drives no LED; otherwise LEDOff |
| LedTask.BikeModeLights | A12G/Application/src/LED_Task/led_task.c:195-203 | stopping gives the stop signal; a turn alternates lit and dark on successive passes from the shared led_state |
| LedTask.FunModeLights | A12G/Application/src/LED_Task/led_task.c:215-222 | fun mode sets all LEDs to one colour whose red, green and blue are the mapped x, y and z acceleration, then waits 10 ticks; an axis at −2048 mg gives 0 |
| LedTask.BikeLight.constructor | A12G/Application/src/LED_Task/led_task.c:172-178 | start-up: 100 ticks, LEDOff, brightness PER_BRIGHTNESS(10) = 3, mode BIKE, direction STOPPING (also lines 16-18) |
| LedTask.BikeLight.SetBikeModeState | A12G/Application/src/LED_Task/led_task.c:35-37 | the direction becomes the argument |
| LedTask.BikeLight.SetSystemState | A12G/Application/src/LED_Task/led_task.c:47-49 | the mode becomes the argument |
| LedTask.BikeLight.GetSystemState | A12G/Application/src/LED_Task/led_task.c:55-57 | returns the mode last set |
| LedTask.BikeLight.GetBikeModeState | A12G/Application/src/LED_Task/led_task.c:63-65 | returns the direction last set |
| LedTask.BikeLight.GetLockState | A12G/Application/src/LED_Task/led_task.c:71-73 | returns the current alert |
| LedTask.BikeLight.ColorRange | A12G/Application/src/LED_Task/led_task.c:93-101 | the loop issues exactly RangeColor's calls |
| LedTask.BikeLight.TurnIndicator | A12G/Application/src/LED_Task/led_task.c:84-105 | a turn issues TurnCommands and flips led_state; any other direction does nothing |
| LedTask.BikeLight.BlinkRedLights | A12G/Application/src/LED_Task/led_task.c:134-139 | all red, 250 ticks, all dark, 250 ticks |
| LedTask.BikeLight.StopSignalLights | A12G/Application/src/LED_Task/led_task.c:117-124 | issues StopSignal of the current sample |
| LedTask.BikeLight.RunPass | A12G/Application/src/LED_Task/led_task.c:180-226 | one pass in place keeps the earlier commands and agrees with Pass: new statics and appended commands |
| HapticTask.SelectDir | A12G/Application/src/HapticTask/haptic_task.c:22-27 | fires the motor, then waits 3000 ticks only when delay is 1 |
| HapticTask.HapticVibrate | A12G/Application/src/HapticTask/haptic_task.c:39-56 | a turn fires its side's motor, with the 3000-tick wait iff that side's sensor is clear; any other direction does nothing |
| HapticTask.HapticPassActions | A12G/Application/src/HapticTask/haptic_task.c:67-97 | bike mode follows haptic_vibrate; stopping does nothing; an active lock alert fires LEFT then RIGHT with no long wait; lock without alert and fun mode do nothing; every pass ends with 200 ticks |
| HapticTask.NoVibrationWhenIdle | A12G/Application/src/HapticTask/haptic_task.c:79-95 | stopping, fun mode and lock mode without an alert issue waits only |
| BlinkLed.TargetTime | A06P/concurrency-example/concurrency-challenge/src/led.c:130-150 | FREQ_1/2/3 map to 2000/1000/500 ms; any other value to 2000 |
| BlinkLed.NextFrequencyCycle | A06P/concurrency-example/concurrency-challenge/src/led.c:173-192 | FREQ_1 → FREQ_2 → FREQ_3 → FREQ_1, each step changing the half-period; the default returns 2000, a time, which then sticks |
| BlinkLed.StepKeepsListed | A06P/concurrency-example/concurrency-challenge/src/led.c:65-118 | after InitLedTask the statics stay within the enums, and the target is that of the current frequency (also lines 48-53) |
| BlinkLed.ChangeAdvancesOnce | A06P/concurrency-example/concurrency-challenge/src/led.c:70-87 | after LedSetChange, the next call advances the frequency once, clears the flag and runs INIT; without it the frequency is kept (also lines 158-161) |
| BlinkLed.OnOffCycle | A06P/concurrency-example/concurrency-challenge/src/led.c:90-116 | ON drives the pin low, OFF high; each switches and restarts the timer iff the wrapping elapsed time reaches the target; an invalid state returns to INIT |
| BlinkLed.WrappingElapsedTime | A06P/concurrency-example/concurrency-challenge/src/led.c:93 | the elapsed time survives the tick counter wrapping (also line 104) |
| BlinkLed.LedBlinker.constructor | A06P/concurrency-example/concurrency-challenge/src/led.c:24-28 | the statics start at zero |
| BlinkLed.LedBlinker.InitLedTask | A06P/concurrency-example/concurrency-challenge/src/led.c:48-53 | in place, agrees with Init |
| BlinkLed.LedBlinker.LedSetChange | A06P/concurrency-example/concurrency-challenge/src/led.c:158-161 | in place, agrees with SetChange |
| BlinkLed.LedBlinker.GetLedTargetTime | A06P/concurrency-example/concurrency-challenge/src/led.c:130-150 | returns TargetTime |
| BlinkLed.LedBlinker.LedTask | A06P/concurrency-example/concurrency-challenge/src/led.c:65-118 | one call in place agrees with Step |
| Button.FiresIffHeldLongEnough | A06P/Concurrency_Challenge/Concurrency_Challenge_FreeRTOS/Porting_FreeRTOS/src/BUTTON/button.c:61-73 | fires iff the pin is low and at least 1000 ticks (wrapping) have passed since the start; after firing the timer restarts |
| Button.ReleaseNeverFires | A06P/Concurrency_Challenge/Concurrency_Challenge_FreeRTOS/Porting_FreeRTOS/src/BUTTON/button.c:66-68 | a release restarts the timer and never fires |
| Button.HeldFiresOncePerPeriod | A06P/Concurrency_Challenge/Concurrency_Challenge_FreeRTOS/Porting_FreeRTOS/src/BUTTON/button.c:61-73 | a continuously held button fires nothing before 1000 ticks, fires on the first call at or past them, and starts a new period |
| Button.ButtonDetector.constructor | A06P/Concurrency_Challenge/Concurrency_Challenge_FreeRTOS/Porting_FreeRTOS/src/BUTTON/button.c:47-50 | the statics as InitButtonTask leaves them |
| Button.ButtonDetector.InitButtonTask | A06P/Concurrency_Challenge/Concurrency_Challenge_FreeRTOS/Porting_FreeRTOS/src/BUTTON/button.c:47-50 | startTime is the tick and pressTime 0 |
| Button.ButtonDetector.ButtonTask | A06P/Concurrency_Challenge/Concurrency_Challenge_FreeRTOS/Porting_FreeRTOS/src/BUTTON/button.c:61-73 | one call in place agrees with Step; *flag is set to 1 on a counted press and never cleared |

## Left out

### Hardware, I/O and services

- I/O and hardware services are oracles or recorded calls, as described above:
  - FatFs, the SD card, and the serial console's printing and reading
  - the I2C drivers (`I2cWriteDataWait`, `I2cReadDataWait`)
  - the NVM controller primitives
  - the DSU CRC unit: an uninterpreted function; only equality of its results matters
  - `HapticGo_dir` and the DRV2605 driver
  - `read_sensor` (the infrared pins)
  - `WifiAddImuDataToQueue`
- `jumpToApplication` (A12G/Bootloader/src/BootMain.c:293-309) rebases the stack pointer and the vector table. The model ends the boot with an abstract `Jump` event after the deinit call.
- The diagnostic messages that erase_nvm, write_nvm, perform_nvm_crc and flash_bin print on the serial console are not recorded in `calls`. They change no state and no status.
- `StartFilesystemAndTest` and the mount itself: the mount's outcome is an input to `Boot`.
- The DSU fence register is a field. What the hardware does with those bits is not modelled.
- BootMain.EraseNvmOutcome: a failed `nvm_erase_row` or page write is assumed to leave the flash as it was. The SAMD21 NVM controller reports lock and programming errors after the command has run, so a real failed erase may leave a partly erased row; the model does not capture that.
- f_unlink's reasons for failing (a write-protected card, a locked or still-open file) are not distinguished: the fault model only says which unlinks fail.

### Timing and concurrency

- FreeRTOS scheduling, queues and semaphores are not modelled.
- `vTaskDelay` is recorded as a command; the time it takes is not modelled.
- `portTICK_PERIOD_MS` is taken as 1, so ticks are milliseconds.
- Every read of the tick count is an explicit input.
- `InitImu`, `InitLED` and `InitHaptic` are not modelled: they are init sequences with delays.

### Sensor data and floating point

- The LIS2DH float conversions (A12G/Application/src/IMU/lis2dh/lis2dh_reg.c:106-179) and `from_fs2_to_mg` in the LED task are floating point. The LED task takes its sample in milli-g as an input.
- LedTask reads "data ready" and the accelerometer once per pass. Both are inputs, because the sensor's timing is not modelled.
- LedTask.BikeLight.constructor: `imudataVar` is read uninitialised until the first sample. The model gives that garbage as a constructor parameter.
- Uninitialised locals of the C getters are `stale` parameters: the local read into on a failed transfer.

### Device model

- The LIS2DH device model assumes two things:
  - a failed transfer changes neither the sensor nor the caller's buffer;
  - a multi-byte transfer advances the register address only with bit 7 of the sub-address set.
- The driver's other accessors (interrupts, click, activity, self-test and so on) are not modelled. They repeat the read-modify-write shape of the field setters that are modelled.
- lis2dh_reg.h is not part of this model. The register addresses, field positions and enumeration codes follow the LIS2DH datasheet.

### CLI

- CliThread.h is not part of this model. MAX_INPUT_LENGTH_CLI = 50, escape-code sizes 4 and 2, and the ASCII codes are that header's values.
- CliThread.ClearTerminalScreen: the first snprintf into `bufCli` is limited to `CLI_MSG_LEN - 1` (A07G_exploring-the-cli/Application/src/CliThread/CliThread.c:241). The model assumes `CLI_MSG_LEN - 1 >= 5`, so that limit never cuts the four-byte code, and applies only the output buffer's limit.
- The command interpreter `FreeRTOS_CLIProcessCommand` is the oracle `interpret`. Its output is written as one block.
- The other console commands are not modelled: `CLI_i2cScan`, `CLI_ResetDevice`, `CLI_OTAU`.
- CliThread.EscapeSequence: history recall fires on every two-code sequence except "oa". That is the code as written, since strcasecmp returns non-zero for a mismatch. The model keeps this behaviour.

### LED stick

- `changeAddress`, `changeLength` and `platform_read` of the LED stick driver are not used by the modelled tasks.

### Integer ranges and unreachable branches

- LedTask.MapImuInRange: the 32-bit int overflow of `x - in_min` is not modelled. The task's inputs are int16, where it cannot occur.
- LedTask: the `default:` branch of the mode switch cannot be reached. The modes are a datatype.
- BlinkLed: the `default:` of LedGetNextFrequency returns 2000, a time, as the frequency. BlinkLed.StepKeepsListed shows this is unreachable after InitLedTask, and BlinkLed.NextFrequencyCycle states what happens if it were reached. It is therefore not reported as a finding.

## Findings

| source | as written | input that shows it | evidently intended | confidence | as-written member | corrected member |
|---|---|---|---|---|---|---|
| A12G/Application/src/IMU/lis2dh/lis2dh_reg.c:273-283 | `lis2dh_temperature_raw_get` reads two bytes from OUT_TEMP_L without the auto-increment bit 0x80, so the LIS2DH returns OUT_TEMP_L twice and the word is OUT_TEMP_L·257 | OUT_TEMP_L = 0, OUT_TEMP_H = 1: the sensor's word is 256, the read as written gives 0 | read from OUT_TEMP_L \| 0x80, as `lis2dh_acceleration_raw_get` does, giving OUT_TEMP_H:OUT_TEMP_L | medium, not executed | Lis2dh.TemperatureCounterexample | Lis2dh.Imu.TemperatureRawGetIncrement |
