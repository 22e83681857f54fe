/** The I2C bit-banging routines the driver calls (I2C_INIT, I2C_START,
    I2C_STOP, I2C_WRITE_BYTE, I2C_READ_BYTE) are external 6502 assembly.
    They are modelled only by what they make happen on the bus: each call
    appends one event to a trace.  A byte read from the bus is whatever the
    device sends, so it is chosen nondeterministically and recorded in the
    trace together with the state of the carry flag, which the caller sets
    (`sec`) or clears (`clc`) before the read to ask for a NACK or an ACK. */
module I2c {

  type Byte = b: int | 0 <= b < 0x100

  datatype Event =
    | Init                                // I2C_INIT
    | Start                               // I2C_START (also a repeated start)
    | Stop                                // I2C_STOP
    | Write(data: Byte)                   // I2C_WRITE_BYTE(data)
    | Read(carry: bool, data: Byte)       // I2C_READ_BYTE: carry clear = ACK, set = NACK

  class Bus {
    /** Everything done on the bus so far, oldest first. */
    var trace: seq<Event>
    /** The 6502 carry flag.  The routines are external, so what they leave
        in it is not known: each of them may change it. */
    var carry: bool

    constructor ()
      ensures trace == []
    {
      trace := [];
      var flag: bool :| true;
      carry := flag;
    }

    method BusInit()
      modifies this
      ensures trace == old(trace) + [Init]
    {
      trace := trace + [Init];
      var flag: bool :| true;
      carry := flag;
    }

    method Start()
      modifies this
      ensures trace == old(trace) + [Event.Start]
    {
      trace := trace + [Event.Start];
      var flag: bool :| true;
      carry := flag;
    }

    method Stop()
      modifies this
      ensures trace == old(trace) + [Event.Stop]
    {
      trace := trace + [Event.Stop];
      var flag: bool :| true;
      carry := flag;
    }

    method WriteByte(data: Byte)
      modifies this
      ensures trace == old(trace) + [Write(data)]
    {
      trace := trace + [Write(data)];
      var flag: bool :| true;
      carry := flag;
    }

    /** `asm("clc")`: the following read acknowledges its byte. */
    method ClearCarry()
      modifies this
      ensures trace == old(trace) && !carry
    {
      carry := false;
    }

    /** `asm("sec")`: the following read does not acknowledge its byte. */
    method SetCarry()
      modifies this
      ensures trace == old(trace) && carry
    {
      carry := true;
    }

    /** Clocks one byte in from the device; its value is not under the
        driver's control. */
    method ReadByte() returns (data: Byte)
      modifies this
      ensures trace == old(trace) + [Read(old(carry), data)]
    {
      data :| true;
      trace := trace + [Read(carry, data)];
      var flag: bool :| true;
      carry := flag;
    }
  }
}
