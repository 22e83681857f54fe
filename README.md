# TMP1075 driver for the SYM-1, modelled in Dafny

The SYM-1 demo program talks to a TMP1075 temperature sensor over I2C from
a 6502. It does four things, all in `main.c`:

- it reads 16-bit device registers with a fixed I2C transaction (`Read_Reg16`);
- it checks the die-identification register against 0x7500 (`Initialize`);
- it converts raw temperature-register values into whole degrees and
  hundredths with integer arithmetic (`show_temperature`);
- in `main`, it reads the temperature, configuration and both limit
  registers, but only after the identity check succeeds.

The model has three modules:

- `I2c` (`bus.dfy`) covers the external bit-banging routines. `I2c.Bus` is a
  class whose only state is the trace of bus events and the 6502 carry flag.
  The flag is cleared (`clc`) before a read that should ACK its byte and set
  (`sec`) before a read that should NACK it. A byte read from the device is
  chosen nondeterministically and recorded in the trace. What the routines
  leave in the carry flag is not known, so each of them may change it.
- `Temperature` (`temperature.dfy`) holds the arithmetic of
  `show_temperature` as the specification function `Decode`, with lemmas
  about it. The arithmetic is on a 32-bit `unsigned long`. The
  multiplication's wrap-around is written out, and the model proves that it
  never happens for a 16-bit register value.
- `Tmp1075` (`driver.dfy`) holds the rest of `main.c`. The class
  `Tmp1075.Driver` holds the program's globals: the union `u`, as a
  two-byte array, and `fixed_point`, as two fields. Its methods are
  `ReadReg16` (`Read_Reg16`), `GetReg16` (`Get_Reg16`), `ShowTemperature`
  (`show_temperature`), `Initialize` (`Initialize`) and `RunApplication`
  (`main`).
  Each method is proved against trace functions (`ReadTransaction`,
  `InitializeTrace`, `MainTrace`) and against `Decode`. The lemmas beside
  them state the register order and the byte order.

Byte order. `Read_Reg16` stores the first received byte in `RegAsBytes[1]`
and the second in `RegAsBytes[0]`, then returns `RegAsUShort`. This yields
`first * 256 + second` only because the 6502 is little-endian. The model
reads the union little-endian explicitly (`UnionValue`) and proves that this
equals the big-endian composition `Word(first, second)`.

Signedness. The sensor's temperature code is two's complement. The code
shifts and divides an unsigned `long`, though, so the model does the same.
A register value of 0x8000 or more therefore reads as 128 degrees or more:
0xFFF0, which the sensor uses for -0.0625 degrees, reads as 255.93
(`SignBitReadsHot`). The code is followed here, not the signed decoding that
a datasheet-level description of the device would suggest.

## Model

| member | source | states |
|---|---|---|
| `Temperature.Decode` | main.c:133-140 | the stored fraction lies in 0..99, the integer part is non-negative, and `integer * 100 + fraction` equals the value left in `value` after the shift, the 32-bit multiply by 625 and the division by 100 |
| `Temperature.ProductFits` | main.c:135-137 | for every 16-bit register value, `(raw >> 4) * 625` is at most 2,559,375, so it fits in 32 bits and the multiplication never wraps |
| `Temperature.DecodeBounds` | main.c:135-140 | for a 16-bit register value, the integer part lies in 0..255 and the fraction in 0..99 |
| `Temperature.DecodeTruncates` | main.c:135-140 | the reading is the exact temperature `code * 0.0625` truncated to hundredths: `100*h <= code*625 < 100*h + 100` |
| `Temperature.LowNibbleIgnored` | main.c:135 | clearing the four low bits of the register leaves the reading unchanged |
| `Temperature.KnownValues` | main.c:41-52 | raw 0x1490 reads as 20.56, the worked example in the comment; as extra round values not taken from the source, 0x1900, 0x1E00 and 0x1F00 read as 25.00, 30.00 and 31.00 |
| `Temperature.SignBitReadsHot` | main.c:133-140 | with unsigned arithmetic, a register value with its top bit set reads as at least 128 degrees, and 0xFFF0 reads as 255.93 |
| `Temperature.DecodeStrictlyIncreasing` | main.c:135-140 | a larger temperature code gives a reading at least 0.06 degrees higher, so distinct codes never share a reading |
| `Temperature.CodeRecovered` | main.c:135-140 | the 12-bit code can be recovered from the reading, so decoding loses only the low nibble |
| `Tmp1075.Word` | main.c:104-110 | the 16-bit value built from a first (high) and a second (low) byte gives back those two bytes as its high and low byte |
| `Tmp1075.WordOfBytes` | main.c:104-110 | every 16-bit value is the composition of its own high and low byte |
| `Tmp1075.UnionValue` | main.c:33-36 | on the little-endian 6502, `RegAsBytes[1]` is the high byte and `RegAsBytes[0]` the low byte of `RegAsUShort` |
| `Tmp1075.ReadTransactionDetermines` | main.c:97-108 | two register reads that produce the same bus events read the same register and return the same value |
| `Tmp1075.RegistersReadTransaction` | main.c:97-99 | one read transaction points the device at exactly one register, the one written after the write address |
| `Tmp1075.RegistersReadAfterInit` | main.c:156 | bus initialisation points the device at no register |
| `Tmp1075.IdentityStatus` | main.c:158 | the status is SUCCESS (0) exactly when the identity register holds 0x7500, and FAILURE (-1) otherwise |
| `Tmp1075.InitializeReadsIdentity` | main.c:154-159 | `Initialize` initialises the bus first and then reads register 0x0F and no other |
| `Tmp1075.MainRegisterOrder` | main.c:168-186 | `main` reads registers 0x0F, 0x00, 0x01, 0x02, 0x03 in that order when the identity matches, and only 0x0F when it does not |
| `Tmp1075.Driver.constructor` | main.c:33-61 | the globals `u` and `fixed_point` start out zero |
| `Tmp1075.Driver.ReadReg16` | main.c:95-111 | emits START, WRITE 0x90, WRITE reg, START, WRITE 0x91, READ with ACK, READ with NACK, STOP. It returns `first * 256 + second` and leaves the first byte in `RegAsBytes[1]` and the second in `RegAsBytes[0]` |
| `Tmp1075.Driver.GetReg16` | main.c:116-128 | performs the same bus transaction and returns the same value as `ReadReg16` |
| `Tmp1075.Driver.ShowTemperature` | main.c:133-140 | after the in-place shift, multiply and divide, `fixed_point` holds `Decode(value)` |
| `Tmp1075.Driver.Initialize` | main.c:154-159 | emits the bus initialisation followed by one read of register 0x0F. It returns `IdentityStatus` of the value read |
| `Tmp1075.Driver.RunApplication` | main.c:164-189 | the bus trace is `MainTrace`: further reads happen only on SUCCESS. On success `fixed_point` holds the decoded temperature, within 0..255 and 0..99. On failure `fixed_point` is unchanged. It returns 0 |
| `I2c.Bus.BusInit` | main.c:11 | `I2C_INIT` appends one initialisation event to the trace; the carry flag is left unknown |
| `I2c.Bus.Start` | main.c:12 | `I2C_START` appends one start event to the trace; the carry flag is left unknown |
| `I2c.Bus.Stop` | main.c:13 | `I2C_STOP` appends one stop event to the trace; the carry flag is left unknown |
| `I2c.Bus.WriteByte` | main.c:14 | `I2C_WRITE_BYTE` appends one write event carrying its byte; the carry flag is left unknown |
| `I2c.Bus.ReadByte` | main.c:15 | `I2C_READ_BYTE` returns a byte the driver does not control and records it with the carry flag in force when it was called; the flag afterwards is unknown |
| `I2c.Bus.ClearCarry` | main.c:103 | `clc` before the first read: the carry flag is clear and the trace is unchanged |
| `I2c.Bus.SetCarry` | main.c:105 | `sec` before the second read: the carry flag is set and the trace is unchanged |

## Left out

- `print_hex_byte` and `print_string` (main.c:66-90) are inline assembly calls into the SYM-1 monitor. They are console output only.
- The console output of `Get_Reg16`, `show_temperature` and `main` is left out. This covers `itoa`, `puts`, the build-date banner and the `label` argument of `show_temperature`. As a result, the model does not say that the fraction is printed without zero padding.
- The I2C routines are external assembly that is not part of this model. Only their order on the bus and the bytes they carry are modelled. Timing, electrical behaviour and what the device actually returns are not.
- `I2C_SET_ACK` and `I2C_SET_NACK` are declared (main.c:16-17) but never called. The carry flag selects ACK or NACK instead.
- The bus routines report no errors, and `Read_Reg16` has no error path. The model therefore has no bus-error result.
- The model does not contain register writes, configuration bitfields, limit-register encoding, a general-call reset or signed (two's-complement) temperature decoding, because `main.c` has none of them.
- `Tmp1075.Driver.RunApplication` stands for `main`. The `#if 1` block is taken as compiled in.
- `Tmp1075.UnionValue`: the union's value is stated for a little-endian host only, the one the program runs on.
