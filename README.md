# SHT20/SHT21 driver model

A Dafny model of the Soldered SHT2X Arduino driver (`SHT21` class) and proofs
about it. The model covers the sequential integer logic of the driver:

- the bit-serial CRC-8 check `CRC_Checksum`, with generator 0x131, initial value 0, no reflection and no final XOR;
- `readSensor_hm`: the choice of the conversion delay, the bounded poll loop with its time-out sentinel 0, the assembly of the MSB-first 16-bit word, and the checksum test with its soft reset and sentinel 1;
- `reset`;
- `getSerialNumber`, which reads two memory locations and places the serial bytes into an 8-byte buffer;
- the status-bit masking step `raw &= ~0x0003` of `CalcRH` and `CalcT`;
- `getHumidity` and `getTemperature`, up to the floating-point formula.

A `Board` class stands for the hardware. Its event log records every bus
action and delay in order. Its scripted inputs are the answers of
`Wire.available()` and the bytes `Wire.read()` delivers. The driver is a class
`Sht21` whose methods follow the source's statements and are proved equal to
specification functions (`ReadSensorOutcome`, `MeasurementReception`,
`SerialNumberLayout`, `SerialNumberEvents`). Lemmas then state the properties
of those functions.

Modules and files:

- `sht2x_constants.dfy` (`Sht2xConstants`): the address, commands, polynomial and conversion delays.
- `crc.dfy` (`Crc`): the CRC, both as the source's loop and as a reference function, with its algebra.
- `status_bits.dfy` (`StatusBits`): the mask, plus the datasheet formulas over `real`.
- `serial_number.dfy` (`SerialNumber`): the byte placement of the identification code.
- `platform.dfy` (`Platform`): the board, its events and its scripted inputs.
- `sht21.dfy` (`Sht21Driver`): the driver class and the specification of its reads.

Type conventions:

- `uint8_t` is `bv8` and `uint16_t` is `bv16`.
- C's integer promotion is written out where it matters. In the CRC step the promoted accumulator is `bv16`. In the mask the promoted value is written as `bv32`, and `StatusBits.MaskSameAt16Bits` shows the result is the same at 16 bits, so it does not matter whether `int` is 16 bits (AVR boards) or 32 bits.
- The `uint8_t` loop counters are `nat`. They never exceed 11, 8 or the byte count, so no wrap-around is possible.

The poll loop of `readSensor_hm` waits 11 times (110 ms) before giving up,
because the counter is incremented before the test and must exceed 10
(`src/SHT2X-SOLDERED.cpp:146-148`); the model keeps that boundary.

Where the source and its comments disagree, the model follows the code:

- `CRC_Checksum` returns 1 on a mismatch and 0 on a match. Its doc comment (`src/SHT2X-SOLDERED.cpp:204`) says the opposite; the caller at line 158 relies on the code's meaning.
- `getHumidity` and `getTemperature` pass the no-hold-master codes 0xF5 and 0xF3 (`src/SHT2X-SOLDERED.cpp:33`, `:47`), although their comments speak of hold master mode.

Structure that differs from the source, without changing behaviour:

- The straight-line body of `readSensor_hm` is split into `SendCommand`, `WaitForMeasurement` and `ReadMeasurement`, following its statement groups.
- The `return 0` inside the poll loop becomes `WaitForMeasurement` returning `ready == false`, and the loop's `delay(10)` is the helper `PollWait`.
- The body of `getSerialNumber` is split the same way, into `RequestLocation`, `ReadFirstLocation` and `ReadSecondLocation`.

## Model

| member | source | states |
|---|---|---|
| Sht2xConstants.ConversionDelay | src/SHT2X-SOLDERED.cpp:132-135 | Commands 0xE5 and 0xF5 give exactly 30 ms. Commands 0xE3 and 0xF3 give exactly 85 ms. Other commands are excluded, because they would leave the delay unassigned. |
| Crc.CrcChecksum | src/SHT2X-SOLDERED.cpp:206-225 | The nested loops return 0 exactly when the CRC-8 of the first `noOfBytes` bytes equals `checksum`, and 1 exactly when it differs. |
| Crc.PromotedBitStep | src/SHT2X-SOLDERED.cpp:215-221 | The source's step (16-bit shift, XOR with 0x131, truncation to `uint8_t`) equals the 8-bit reference step: shift, then XOR with 0x31 times the bit shifted out. |
| Crc.PromotedStepFits | src/SHT2X-SOLDERED.h:21 | The ninth bit of 0x131 cancels the bit shifted out, so the promoted value always fits in a byte and truncation discards nothing. |
| Crc.CrcBitStepCases | src/SHT2X-SOLDERED.cpp:217-220 | With bit 7 set the step is shift-and-XOR-0x31, otherwise a plain shift. |
| Crc.CrcBitStepArithmetic | src/SHT2X-SOLDERED.cpp:217-220 | In integers the step is `(crc*2) mod 256`, XORed with 0x31 exactly when crc >= 128. |
| Crc.CrcBitStepXor | src/SHT2X-SOLDERED.cpp:217-220 | The bit step is linear over GF(2). |
| Crc.CrcBitStepNonzero | src/SHT2X-SOLDERED.cpp:217-220 | The bit step maps 0 to 0 and nonzero to nonzero. |
| Crc.ShiftBitsXor | src/SHT2X-SOLDERED.cpp:215-221 | Any number of bit steps, in particular the eight of one byte, are linear over GF(2). |
| Crc.ShiftBitsNonzero | src/SHT2X-SOLDERED.cpp:215-221 | Any number of bit steps keep a zero accumulator at zero and a nonzero one nonzero. |
| Crc.CrcBitStepInjective | src/SHT2X-SOLDERED.cpp:217-220 | Two accumulators differ exactly when their bit steps differ. |
| Crc.ShiftBitsInjective | src/SHT2X-SOLDERED.cpp:215-221 | Two accumulators differ exactly when their results after k bit steps differ. |
| Crc.CrcByteInjective | src/SHT2X-SOLDERED.cpp:214-221 | Folding in a byte gives different results exactly when accumulator XOR byte differs. |
| Crc.Crc8Zeros | src/SHT2X-SOLDERED.cpp:208-222 | Any run of zero bytes leaves the accumulator at 0. |
| Crc.Crc8AppendChecksum | src/SHT2X-SOLDERED.cpp:208-222 | The CRC of the data followed by its own CRC is 0. |
| Crc.Crc8PrefixDiffers | src/SHT2X-SOLDERED.cpp:212-222 | Corrupting byte i by a nonzero mask changes the CRC of every prefix that contains it. |
| Crc.Crc8DetectsByteError | src/SHT2X-SOLDERED.cpp:208-224 | Any corruption confined to one byte changes the CRC. |
| Crc.SingleBitErrorsDetected | src/SHT2X-SOLDERED.cpp:224 | Starting from a matching checksum, flipping one bit of the data or of the checksum makes the comparison fail. |
| Crc.ChecksumBitErrorDetected | src/SHT2X-SOLDERED.cpp:224 | For any data, the empty message included, flipping one bit of a matching checksum makes the comparison fail. |
| Crc.Crc8CheckValues | src/SHT2X-SOLDERED.h:21 | Datasheet check values: CRC(0xDC) = 0x79, CRC(0x68, 0x3A) = 0x7C, CRC(0x4E, 0x85) = 0x6B. |
| StatusBits.MaskStatusBits | src/SHT2X-SOLDERED.cpp:177 | `rh &= ~0x0003` after integer promotion: the low two bits become 0 and bits 2..15 are kept. |
| StatusBits.MaskSameAt16Bits | src/SHT2X-SOLDERED.cpp:177 | The mask has the same result on a 16-bit `int`, where `~0x0003` is 0xFFFC, as on a 32-bit one. |
| StatusBits.MaskArithmetic | src/SHT2X-SOLDERED.cpp:192 | The masked value is a multiple of 4, at most the raw value, and below it by at most 3. |
| StatusBits.MaskIdempotent | src/SHT2X-SOLDERED.cpp:177 | Masking twice equals masking once. |
| StatusBits.MaskIgnoresStatusBits | src/SHT2X-SOLDERED.cpp:192 | Two raw values mask to the same value exactly when they agree above their two status bits. |
| StatusBits.IdealHumidity | src/SHT2X-SOLDERED.cpp:179 | Datasheet formula -6 + 125*S/2^16 over reals on the masked code, in [-6, 119). |
| StatusBits.IdealTemperature | src/SHT2X-SOLDERED.cpp:194 | Datasheet formula -46.85 + 175.72*S/2^16 over reals on the masked code, in [-46.85, 128.87). |
| StatusBits.IdealValuesIgnoreStatusBits | src/SHT2X-SOLDERED.cpp:177-194 | The status bits influence neither physical value. |
| StatusBits.IdealValueEndPoints | src/SHT2X-SOLDERED.cpp:177-194 | The values of both formulas at raw codes 0x0000 and 0xFFFF. |
| SerialNumber.DataBytesAreNonCrcBytes | src/SHT2X-SOLDERED.cpp:87-112 | The serial bytes, in arrival order, are exactly the bytes of the two reads that are not at a CRC position (1, 3, 5, 7 of the first; 2, 5 of the second), filtered in order. |
| SerialNumber.SerialNumberLayout | src/SHT2X-SOLDERED.cpp:87-112 | The filled buffer: sn[5]=a[0], sn[4]=a[2], sn[3]=a[4], sn[2]=a[6], sn[1]=b[0], sn[0]=b[1], sn[7]=b[3], sn[6]=b[4]. |
| SerialNumber.PlacementIsPermutation | src/SHT2X-SOLDERED.cpp:87-112 | Each of the eight slots is written exactly once. |
| SerialNumber.CrcBytesIgnored | src/SHT2X-SOLDERED.cpp:88-112 | The CRC bytes a[1], a[3], a[5], a[7], b[2] and b[5] do not affect the buffer. |
| SerialNumber.DataBytesDetermineLayout | src/SHT2X-SOLDERED.cpp:87-112 | Equal buffers imply equal serial bytes in both reads, so no data byte is lost. |
| Platform.Board.BeginTransmission | src/SHT2X-SOLDERED.cpp:137 | `Wire.beginTransmission(address)` is logged with its address, and the scripts are unchanged. |
| Platform.Board.Write | src/SHT2X-SOLDERED.cpp:138 | `Wire.write(value)` is logged with its byte, and the scripts are unchanged. |
| Platform.Board.EndTransmission | src/SHT2X-SOLDERED.cpp:139 | `Wire.endTransmission()` is logged, and the scripts are unchanged. |
| Platform.Board.RequestFrom | src/SHT2X-SOLDERED.cpp:141 | `Wire.requestFrom(address, quantity)` is logged with both arguments, and the scripts are unchanged. |
| Platform.Board.Delay | src/SHT2X-SOLDERED.cpp:145 | `delay(ms)` is logged with its duration, and the scripts are unchanged. |
| Platform.Board.Read | src/SHT2X-SOLDERED.cpp:151-153 | `Wire.read()` delivers the next received byte, or 0xFF past the end, and logs it. |
| Platform.Board.Available | src/SHT2X-SOLDERED.cpp:143 | `Wire.available()` answers the next scripted count (0 once exhausted) and logs nothing. |
| Sht21Driver.Sht21.Reset | src/SHT2X-SOLDERED.cpp:55-62 | The log gains BeginTransmission(0x40), Write(0xFE), EndTransmission, Delay(15); nothing else changes. |
| Sht21Driver.Sht21.SendCommand | src/SHT2X-SOLDERED.cpp:132-141 | The log gains the command write to 0x40, the conversion delay and the request for 3 bytes. |
| Sht21Driver.Sht21.PollWait | src/SHT2X-SOLDERED.cpp:145 | One wait of the poll loop adds exactly one 10 ms delay to the log and leaves both scripts unchanged. |
| Sht21Driver.Sht21.WaitForMeasurement | src/SHT2X-SOLDERED.cpp:143-149 | With k the first poll that sees 3 bytes, the loop logs k waits of 10 ms. It reports ready exactly when k <= 10, and consumes k + 1 answers if ready, otherwise k. |
| Sht21Driver.Sht21.ReadMeasurementBytes | src/SHT2X-SOLDERED.cpp:151-153 | MSB, LSB and checksum are the next three received bytes, and three reads are logged. |
| Sht21Driver.Sht21.ReadMeasurement | src/SHT2X-SOLDERED.cpp:151-164 | The result and log equal `MeasurementReception`: 1 plus the reset sequence on a mismatch, the assembled word otherwise. |
| Sht21Driver.Sht21.ReadSensorHm | src/SHT2X-SOLDERED.cpp:124-165 | `readSensor_hm` returns `ReadSensorOutcome(...).result`, appends exactly its events to the log, and consumes exactly its polls and bytes. |
| Sht21Driver.Sht21.GetHumidity | src/SHT2X-SOLDERED.cpp:29-36 | A read with command 0xF5, whose raw result is then masked. |
| Sht21Driver.Sht21.GetTemperature | src/SHT2X-SOLDERED.cpp:43-50 | A read with command 0xF3, whose raw result is then masked. |
| Sht21Driver.Sht21.RequestLocation | src/SHT2X-SOLDERED.cpp:77-82 | The log gains the two address bytes of a memory location written to 0x40, then the request for its bytes. |
| Sht21Driver.Sht21.ReadSerialPair | src/SHT2X-SOLDERED.cpp:87-88 | One received byte is stored in the given slot and the next (its CRC) is read and dropped. No other slot changes. |
| Sht21Driver.Sht21.ReadSerialTriple | src/SHT2X-SOLDERED.cpp:107-109 | Two received bytes are stored in the two given slots and the third (their CRC) is dropped. No other slot changes. |
| Sht21Driver.Sht21.ReadFirstLocation | src/SHT2X-SOLDERED.cpp:87-94 | Slots 5, 4, 3, 2 receive bytes 0, 2, 4, 6 of the 8-byte read. Slots 0, 1, 6, 7 are untouched. All 8 reads are logged. |
| Sht21Driver.Sht21.ReadSecondLocation | src/SHT2X-SOLDERED.cpp:107-112 | Slots 1, 0, 7, 6 receive bytes 0, 1, 3, 4 of the 6-byte read. Slots 2..5 are untouched. All 6 reads are logged. |
| Sht21Driver.Sht21.GetSerialNumber | src/SHT2X-SOLDERED.cpp:71-115 | Returns `SerialNumberLayout(first 8 bytes, next 6 bytes)[returnSn]`, logs both location requests and all 14 reads, and consumes 14 bytes. |
| Sht21Driver.RawWordBytes | src/SHT2X-SOLDERED.cpp:155-156 | The assembled word has the MSB as its high byte and the LSB as its low byte. |
| Sht21Driver.RawWordValue | src/SHT2X-SOLDERED.cpp:155-156 | As a number the word is MSB * 256 + LSB, which is below 65536. |
| Sht21Driver.RawWordRoundTrip | src/SHT2X-SOLDERED.cpp:155-156 | Assembling two bytes into a word and splitting a word into two bytes are inverse to each other. |
| Sht21Driver.FirstReady | src/SHT2X-SOLDERED.cpp:143-149 | The index of the first poll that sees at least 3 bytes, or 11 if none of polls 0..10 does. Every earlier poll saw fewer. |
| Sht21Driver.FirstReadyIsFirst | src/SHT2X-SOLDERED.cpp:143-149 | Conversely, any n whose earlier polls all saw fewer than 3 bytes, and whose own poll sees 3 (when n <= 10), is that index. |
| Sht21Driver.ReadStartsWithCommand | src/SHT2X-SOLDERED.cpp:137-141 | Every read begins with the command write, the conversion delay and the request for 3 bytes, in that order. |
| Sht21Driver.PollWaitsBounded | src/SHT2X-SOLDERED.cpp:143-149 | The number of 10 ms waits is the number of unsuccessful polls and never exceeds 11. |
| Sht21Driver.ReadTimeout | src/SHT2X-SOLDERED.cpp:143-149 | No byte is read exactly when all 11 polls see fewer than 3 bytes. In that case the result is 0, after exactly 11 waits of 10 ms. |
| Sht21Driver.ReadValid | src/SHT2X-SOLDERED.cpp:151-164 | With a matching checksum the result is data0*256 + data1, its bytes are MSB and LSB, three bytes are read and no reset is sent. |
| Sht21Driver.ReadChecksumMismatch | src/SHT2X-SOLDERED.cpp:158-162 | With a mismatching checksum the result is 1 and the log ends with the reset sequence (0xFE to 0x40, then 15 ms). |
| Sht21Driver.SentinelsAreAmbiguous | src/SHT2X-SOLDERED.cpp:147-164 | Both sentinels are also valid readings. A correct reading of 0x0000 returns the same 0 as a time-out, and a correct reading of 0x0001 the same 1 as a checksum failure. |

## Left out

- `begin()` and the Wire transport itself: these are library calls. The bus is modelled by its observable actions and scripted answers.
- `delay()` takes no time in the model; each call is a logged event carrying its millisecond argument.
- The busy-waits `while (Wire.available() < 8)` and `< 6` in `getSerialNumber` (`src/SHT2X-SOLDERED.cpp:83`, `:103`) are left out, because their termination depends on the hardware. `Sht21Driver.Sht21.GetSerialNumber` instead requires the 14 bytes to be in the received-byte script, and it consumes no `Wire.available()` answers. The source consumes at least one answer in each busy-wait, so at least two in total. After a serial-number read, a following `ReadSensorHm` in the model therefore sees answers that the source would already have used up.
- Sht21Driver.Sht21.GetSerialNumber: `return_sn >= 8` indexes outside `serialNumber[8]` (undefined behaviour), so it is a precondition.
- Sht2xConstants.ConversionDelay: a command other than the four measurement codes leaves `d` uninitialised in the source; the model requires one of the four, and so do the functions and methods of `readSensor_hm` built on it.
- The floating-point evaluation of `CalcRH` and `CalcT`: `GetHumidity` and `GetTemperature` return the masked code. `IdealHumidity` and `IdealTemperature` are the datasheet formulas over exact reals and are not claimed equal to the `float` results.
- StatusBits.MaskArithmetic: the statements are in unsigned 16-bit arithmetic (`bv16`), which is exact here because the values lie in 0..65535.
- The `SHT20` subclass is an alias of `SHT21` without behaviour of its own.
- The user-register commands `USER_REGISTER_W` and `USER_REGISTER_R` are declared but never used by the driver.
- Received bytes past the end of the script read as 0xFF, which is Arduino's `-1` stored in a `uint8_t`. The model does not say what else real hardware might deliver.
