# TMC5160 register transports and integer unit conversions

A Dafny model of the core of a TinyGo driver for the TMC5160 stepper-motor
driver chip:

- **SPI transport** (`spi_comm.dfy`, module `SpiComm`). It builds the 5-byte
  datagram: the register byte, then the 32-bit value big-endian. It decodes
  bytes 1-4 of the reply and drops byte 0, the status byte. Each access
  drives the addressed driver's chip-select pin Low for exactly one
  exchange and High again afterwards, on every path. `Setup` drives every
  chip-select pin of the table High before it configures the bus. The class
  `SpiComm.SpiComm` holds the chip-select table, the levels of the pins it
  has driven and an ordered log of its hardware actions.
- **UART transport** (`uart_comm.dfy`, module `UartComm`). It builds the
  8-byte write packet and the 4-byte read request. Both start with sync byte
  `0x05` and the slave address, and both end with an XOR checksum. A read
  reply is accepted only when its checksum matches, and its value is then
  decoded from bytes 3-6. The class `UartComm.UartComm` records what it sends.
- **Integer conversions** (`helpers.dfy`, module `Helpers`), on `uint32`
  modelled as bounded integers. These are `constrain`, `thrsSpeedToTstep`, `UstepPerSec` and the package constants
  `_uStepCount`, `_fclkMhz` and `_tRef`.
- Shared vocabulary (`wire.dfy`, module `Wire`): Go `uint8` and the `uint32`
  register value (a 32-bit bit-vector), the big-endian layout of a register value, the XOR checksum and its loop.
  The error messages are in `errors.dfy`, module `Errors`.

Hardware calls become inputs to the methods that make them:

- `spi.Tx` is a `TxReply`: a fault, or the 5 received bytes.
- `Configure` is a `configureFails` flag.
- The UART goroutine raced against the 100 ms timer is a `completed` flag
  for a write. For a read it is `Option<seq<byte>>`, with `None` when the
  timer fires first.

The SPI read returns bytes 1-4 of its own exchange. The chip fills them with
the data latched by the previous exchange. The transport makes no second read.

## Model

| member | source | states |
|---|---|---|
| `Errors.Message` | SPIcomm.go:7-12 | `CustomError.Error()` gives each error's message text, and that text is non-empty |
| `Errors.MessageInjective` | SPIcomm.go:7-12 | two errors with the same message are the same error, so the ten messages are distinct |
| `Wire.Be32RoundTrip` | SPIcomm.go:97-103 | decoding the four big-endian bytes `byte(v>>24), byte(v>>16), byte(v>>8), byte(v)` of any uint32 gives `v` back |
| `Wire.Be32Bytes` | SPIcomm.go:98-102 | the four value bytes of a frame are the value's byte lanes, most significant first: byte k shifted back into place equals the value masked to lane k |
| `Wire.Be32Value` | SPIcomm.go:115 | encoding the value built from `rx[1]` to `rx[4]` (most significant first) gives back exactly those four bytes, so the decode loses no byte |
| `Wire.XorAll` | uartcomm.go:57-60 | bit j of the XOR of a byte sequence is set exactly when an odd number of its bytes have bit j set |
| `Wire.XorAllUpdate` | uartcomm.go:102-105 | changing one byte of a sequence changes its XOR by exactly the old byte XOR the new byte |
| `Wire.XorChecksum` | uartcomm.go:57-60 | the checksum loop returns the XOR of the first `n` bytes of the buffer |
| `SpiComm.SpiFrame` | SPIcomm.go:97-103 | the datagram has 5 bytes: byte 0 is the register and bytes 1-4 are the value big-endian |
| `SpiComm.SpiFrameRoundTrip` | SPIcomm.go:97-103 | decoding bytes 1-4 of the frame built for `value` gives `value`, whatever the register byte |
| `SpiComm.SpiDecode` | SPIcomm.go:115 | the decoded value's big-endian bytes are exactly reply bytes 1-4 |
| `SpiComm.SpiDecodeIgnoresStatus` | SPIcomm.go:115 | reply byte 0, the status byte, never affects the decoded value |
| `SpiComm.ReadFrameIsZeroFilled` | SPIcomm.go:84 | a read transmits `[register, 0, 0, 0, 0]` |
| `SpiComm.TransferResult` | SPIcomm.go:109-117 | a bus fault yields 0; otherwise the result is the decoded reply, whose big-endian bytes are reply bytes 1-4 |
| `SpiComm.SpiComm.constructor` | SPIcomm.go:21-26 | stores the bus and the chip-select table and touches no pin |
| `SpiComm.SpiComm.Setup` | SPIcomm.go:29-51 | without a bus: "SPI not initialized", and no pin or bus action. With a bus: every table pin is configured as an output and driven High (both actions appear in the new part of the log, and every new action before the last is one of these on a table pin), other pins keep their levels, and the last action is the bus configuration (mode 3, MSB first). The pins stay High when that configuration fails with "Failed to configure SPI" |
| `SpiComm.SpiComm.Transfer40` | SPIcomm.go:95-118 | exactly one transfer of `SpiFrame(register, txData)`; a fault is reported and yields 0, otherwise the decoded reply |
| `SpiComm.SpiComm.WriteRegister` | SPIcomm.go:54-72 | an unknown address gives "Invalid driver address" with no pin or bus action. Otherwise the actions are exactly Low(pin), the transfer, High(pin), and only that pin's level changes (to High). A fault gives "Failed to write register" |
| `SpiComm.SpiComm.ReadRegister` | SPIcomm.go:75-93 | as WriteRegister with a zero value field; an unknown address or a fault returns 0 ("Invalid driver address" / "Failed to read register"); otherwise the decoded reply bytes 1-4 |
| `UartComm.WriteHeaderAndValue` | uartcomm.go:46-54 | the write buffer literal: 7 bytes `0x05, address, register OR 0x80`, then the value big-endian |
| `UartComm.StoreAt` | uartcomm.go:61 | a Go slice store succeeds exactly when the index is below the length; it then puts `x` at that index and leaves every other element and the length unchanged |
| `UartComm.WritePacketAsWritten` | uartcomm.go:46-61 | the write packet as written never returns: it stops with an index panic at index 7 |
| `UartComm.WritePacketAsWrittenPanics` | uartcomm.go:46-61 | the write buffer as written always panics on `buffer[7]` (index 7, length 7) |
| `UartComm.WritePacket` | uartcomm.go:46-61 | the intended packet has 8 bytes: the 7-byte literal, then the XOR of those bytes. The register byte has bit 7 set and keeps the register's low 7 bits |
| `UartComm.WritePacketXorZero` | uartcomm.go:57-61 | the XOR of all eight write-packet bytes is 0 |
| `UartComm.WritePacketCarriesValue` | uartcomm.go:50-53 | bytes 3-6 of the write packet decode big-endian to the value |
| `UartComm.ReadRequest` | uartcomm.go:83-87 | the read request is `0x05, address, register&0x7F, b0^b1^b2`, and its register byte has bit 7 clear and keeps the register's low 7 bits |
| `UartComm.ParseReply` | uartcomm.go:102-111 | the reply is accepted iff byte 7 equals the XOR of bytes 0-6. A rejected reply gives ("checksum error", 0). An accepted one gives the value whose big-endian bytes are bytes 3-6 |
| `UartComm.ReplyRoundTrip` | uartcomm.go:102-111 | every reply with a correct checksum built around `v` decodes to `v`, whatever its header bytes |
| `UartComm.ChecksumIffXorZero` | uartcomm.go:102-108 | a reply passes the checksum exactly when the XOR of all 8 bytes is 0 |
| `UartComm.SingleByteCorruptionDetected` | uartcomm.go:102-108 | changing any one byte of an accepted reply makes it fail with "checksum error" |
| `UartComm.UartComm.constructor` | uartcomm.go:16-22 | stores the UART and the slave address |
| `UartComm.UartComm.Setup` | uartcomm.go:24-41 | without a UART: "UART not initialized" and no action. Otherwise the UART is configured at 115200 baud, and a failed configuration gives "Failed to configure UART" |
| `UartComm.UartComm.WriteRegister` | uartcomm.go:43-78 | sends exactly `WritePacket(address, register, value)`, so `driverIndex` has no effect. It returns nil when the write completes and "write timeout" when the timer fires first |
| `UartComm.UartComm.ReadRegister` | uartcomm.go:80-115 | sends exactly `ReadRequest(address, register)`, so `driverIndex` has no effect. No reply gives ("read timeout", 0); a reply gives `ParseReply`'s result |
| `Helpers.ConstantValues` | helpers.go:9-16 | `_tRef` is 1398101, `_uStepCount/256` is 1, and the TSTEP cap is 2^20-1 |
| `Helpers.UstepPerSec` | helpers.go:23-25 | the result is the number of whole `_tRef` units in the input: `r*_tRef <= x < (r+1)*_tRef` |
| `Helpers.UstepPerSecBounds` | helpers.go:23-25 | the result is at most the input, 0 below 1398101, and at most 3072 |
| `Helpers.Constrain` | helpers.go:70-77 | for `min <= max` the result lies in `[min, max]`: `min` below the range, `max` above it, the value unchanged inside it |
| `Helpers.ConstrainIdempotent` | helpers.go:70-77 | clamping twice with the same bounds equals clamping once |
| `Helpers.ThrsSpeedToTstepAsWritten` | helpers.go:60-66 | as written, the conversion divides by zero exactly when the threshold is 0; otherwise it returns at most 1048575 |
| `Helpers.ZeroThresholdDividesByZero` | helpers.go:60-64 | as written, the guard `thrsSpeed < 0` never holds, so a zero threshold reaches the division by zero |
| `Helpers.ThrsSpeedToTstep` | helpers.go:60-67 | a zero threshold is rejected. Otherwise the result is at most 1048575 and equals the source's result |
| `Helpers.ThrsSpeedToTstepClosedForm` | helpers.go:64-66 | for `t > 0` the result is `min(16777216 / t, 1048575)` |
| `Helpers.ThrsSpeedToTstepExamples` | helpers.go:60-67 | 1000 gives 16777, 10000 gives 1677, and 1 gives 1048575 |
| `Helpers.DivNonIncreasing` | helpers.go:64 | a larger divisor never gives a larger quotient |
| `Helpers.ThrsSpeedToTstepNonIncreasing` | helpers.go:60-67 | a higher threshold speed never gives a larger TSTEP |

## Findings

| source | as written | input that shows it | evidently intended | confidence | as-written member | corrected member |
|---|---|---|---|---|---|---|
| uartcomm.go:46-61 | the write buffer literal has 7 elements, then `buffer[7] = checksum` stores past its end | any call, e.g. register 0x21, value 0 | an 8-byte packet whose last byte is the XOR of bytes 0-6, as the comments and the read path describe | high; not executed | `UartComm.WritePacketAsWrittenPanics` | `UartComm.WritePacket` |
| helpers.go:60-64 | the guard `thrsSpeed < 0` can never hold for a `uint32` | `thrsSpeed = 0`: `16777216 / 0` is a run-time division-by-zero panic | reject a zero threshold explicitly | high; not executed | `Helpers.ZeroThresholdDividesByZero` | `Helpers.ThrsSpeedToTstep` |

`UartComm.UartComm.WriteRegister` builds and sends the corrected 8-byte
packet.

## Left out

- Floating-point conversions `roundFloat`, `speedToHz`, `speedFromHz` and `accelFromHz` (helpers.go:18-57): float32 arithmetic through a maths library. `speedToHz` also logs.
- `MaxStepsPerSecond` (helpers.go:80-85) has an empty body. `_ustepPerRev` and `_maxUstepPerTref` (helpers.go:12-13) are unused, and the second overflows `uint32`.
- The goroutines, channels and `time.After` of the UART transport (uartcomm.go:64-77, 90-114): the race becomes the `completed` / `reply` input.
- `UartComm.UartComm.WriteRegister` and `UartComm.UartComm.ReadRegister` record the dispatched packet on the timeout path too. The goroutine is not cancelled, so whether the bytes left the UART is not modelled.
- The UART reply is taken as 8 bytes. A short `uart.Read` leaves the zero bytes of the fresh buffer in place, and those are among the inputs.
- Pin and bus configuration (`machine.Pin.Configure`, `machine.SPI.Configure`, `machine.UART.Configure`) and `spi.Tx` are foreign hardware calls. They appear only as logged actions and as inputs.
- The zero-valued handle checks (`comm.spi == machine.SPI{}`, `comm.uart == machine.UART{}`) become the flags `busPresent` and `uartPresent`.
- tmc5160.go (plain data types, `Enable`/`Disable` pin toggles), main.go (board glue) and func_test.go (tests of float conversions defined outside these files) are not part of this model.
