/** The TMP1075 driver of the SYM-1 demo: 16-bit register reads over I2C,
    the device-identity check, the conversion of register values into
    fixed-point temperatures, and the order in which the main program reads
    the registers. */
module Tmp1075 {
  import opened I2c
  import opened Temperature

  // Bus addresses of the sensor: write (R/W bit clear) and read (R/W bit set).
  const ADDR_R: Byte := 0x91
  const ADDR_W: Byte := 0x90

  // Register addresses.
  const TEMP: Byte := 0x00
  const CFGR: Byte := 0x01
  const LLIM: Byte := 0x02
  const HLIM: Byte := 0x03
  const DIEID: Byte := 0x0F

  /** What the die-identification register of a TMP1075 holds. */
  const DEVICE_ID: UShort := 0x7500

  const FAILURE: int := -1
  const SUCCESS: int := 0

  function HighByte(w: UShort): Byte
  {
    w / 0x100
  }

  function LowByte(w: UShort): Byte
  {
    w % 0x100
  }

  /** The 16-bit value whose most significant byte is `hi`: the byte order
      of the wire, where the first byte received is the high byte. */
  function Word(hi: Byte, lo: Byte): (w: UShort)
    ensures HighByte(w) == hi && LowByte(w) == lo
  {
    hi * 0x100 + lo
  }

  /** Splitting a value into its bytes and joining them again gives it back. */
  lemma WordOfBytes(w: UShort)
    ensures Word(HighByte(w), LowByte(w)) == w
  {
  }

  /** `u.RegAsUShort`: the two bytes of the union read as one unsigned short
      on the little-endian 6502, so `RegAsBytes[0]` is the low byte.  On a
      big-endian host the same C code would compute something else. */
  function UnionValue(bytes: seq<Byte>): (w: UShort)
    requires |bytes| == 2
    ensures HighByte(w) == bytes[1] && LowByte(w) == bytes[0]
  {
    bytes[0] as int + 0x100 * bytes[1] as int
  }

  /** The bus events of one register read returning `value`: the register
      pointer is set by a write, then after a repeated start two bytes are
      read, the high byte with an ACK (carry clear), the low byte with a
      NACK (carry set). */
  function ReadTransaction(reg: Byte, value: UShort): seq<Event>
  {
    [Event.Start, Write(ADDR_W), Write(reg),
     Event.Start, Write(ADDR_R),
     Read(false, HighByte(value)), Read(true, LowByte(value)),
     Event.Stop]
  }

  /** A read transaction on the bus tells which register was read and what
      it held. */
  lemma ReadTransactionDetermines(reg1: Byte, value1: UShort, reg2: Byte, value2: UShort)
    requires ReadTransaction(reg1, value1) == ReadTransaction(reg2, value2)
    ensures reg1 == reg2 && value1 == value2
  {
  }

  /** The registers the device was pointed at, in order: each byte written
      right after the device's write address. */
  function RegistersRead(t: seq<Event>): seq<Byte>
    decreases |t|
  {
    if |t| < 2 then []
    else if t[0] == Write(ADDR_W) && t[1].Write? then [t[1].data] + RegistersRead(t[2..])
    else RegistersRead(t[1..])
  }

  /** One read transaction points the device at exactly one register. */
  lemma {:induction false} RegistersReadTransaction(reg: Byte, value: UShort, rest: seq<Event>)
    ensures RegistersRead(ReadTransaction(reg, value) + rest) == [reg] + RegistersRead(rest)
  {
    var t := ReadTransaction(reg, value) + rest;
    assert t[1..] == [Write(ADDR_W), Write(reg)] + t[3..];
    assert RegistersRead(t) == RegistersRead(t[1..]);
    assert RegistersRead(t[1..]) == [reg] + RegistersRead(t[3..]);
    assert t[3..][1..] == t[4..] && t[4..][1..] == t[5..];
    assert t[5..][1..] == t[6..] && t[6..][1..] == t[7..];
    assert RegistersRead(t[3..]) == RegistersRead(t[4..]) == RegistersRead(t[5..]);
    assert RegistersRead(t[5..]) == RegistersRead(t[6..]) == RegistersRead(t[7..]);
    assert t[7..] == [Event.Stop] + rest;
    if rest != [] {
      assert t[7..][1..] == rest;
    }
  }

  /** The bus initialisation points the device at no register. */
  lemma RegistersReadAfterInit(rest: seq<Event>)
    ensures RegistersRead([Init] + rest) == RegistersRead(rest)
  {
  }

  /** Initialize reports SUCCESS exactly when the identity read matches. */
  function IdentityStatus(id: UShort): (status: int)
    ensures status == SUCCESS <==> id == DEVICE_ID
    ensures status == SUCCESS || status == FAILURE
  {
    if id == DEVICE_ID then SUCCESS else FAILURE
  }

  /** The bus events of Initialize when the identity register holds `id`. */
  function InitializeTrace(id: UShort): seq<Event>
  {
    [Init] + ReadTransaction(DIEID, id)
  }

  /** The bus events of the main program: the temperature, configuration and
      limit registers are read only after a successful identity check. */
  function MainTrace(id: UShort, temp: UShort, cfg: UShort, llim: UShort, hlim: UShort): seq<Event>
  {
    InitializeTrace(id) +
      if IdentityStatus(id) == SUCCESS then
        ReadTransaction(TEMP, temp) + ReadTransaction(CFGR, cfg) +
        ReadTransaction(LLIM, llim) + ReadTransaction(HLIM, hlim)
      else []
  }

  /** Initialize starts the bus first and then reads the identity register
      and no other. */
  lemma InitializeReadsIdentity(id: UShort)
    ensures InitializeTrace(id)[0] == Init
    ensures RegistersRead(InitializeTrace(id)) == [DIEID]
  {
    RegistersReadAfterInit(ReadTransaction(DIEID, id));
    RegistersReadTransaction(DIEID, id, []);
    assert ReadTransaction(DIEID, id) + [] == ReadTransaction(DIEID, id);
  }

  /** On success the main program reads the temperature, configuration, low
      limit and high limit registers, in that order; on failure it reads
      nothing beyond the identity register. */
  lemma MainRegisterOrder(id: UShort, temp: UShort, cfg: UShort, llim: UShort, hlim: UShort)
    ensures MainTrace(id, temp, cfg, llim, hlim)[0] == Init
    ensures RegistersRead(MainTrace(id, temp, cfg, llim, hlim)) ==
      if id == DEVICE_ID then [DIEID, TEMP, CFGR, LLIM, HLIM] else [DIEID]
  {
    var t := MainTrace(id, temp, cfg, llim, hlim);
    if id == DEVICE_ID {
      var hl := ReadTransaction(HLIM, hlim);
      var ll := ReadTransaction(LLIM, llim) + hl;
      var cf := ReadTransaction(CFGR, cfg) + ll;
      var tp := ReadTransaction(TEMP, temp) + cf;
      assert t == [Init] + (ReadTransaction(DIEID, id) + tp);
      RegistersReadTransaction(HLIM, hlim, []);
      assert hl + [] == hl;
      RegistersReadTransaction(LLIM, llim, hl);
      RegistersReadTransaction(CFGR, cfg, ll);
      RegistersReadTransaction(TEMP, temp, cf);
      RegistersReadTransaction(DIEID, id, tp);
      RegistersReadAfterInit(ReadTransaction(DIEID, id) + tp);
    } else {
      assert t == InitializeTrace(id);
      InitializeReadsIdentity(id);
    }
  }

  /** The driver's global state: the bus it talks on, the union `u` that
      receives the two bytes of a register read, and `fixed_point`, where
      show_temperature leaves its result. */
  class Driver {
    const bus: Bus
    /** `u.RegAsBytes`. */
    const regBytes: array<Byte>
    /** `fixed_point.integer` and `fixed_point.fraction`. */
    var integer: int
    var fraction: int

    ghost predicate Valid()
      reads this
    {
      regBytes.Length == 2
    }

    /** C globals start out zero. */
    constructor (bus: Bus)
      ensures Valid() && this.bus == bus && fresh(regBytes)
      ensures regBytes[..] == [0, 0] && integer == 0 && fraction == 0
    {
      this.bus := bus;
      regBytes := new Byte[2](_ => 0);
      integer, fraction := 0, 0;
      new;
      assert regBytes[..] == [regBytes[0], regBytes[1]];
    }

    /** Read_Reg16: one fixed I2C transaction; the first byte received is
        stored in the high half of the union and the value returned is
        `first * 256 + second`. */
    method ReadReg16(reg: Byte) returns (value: UShort)
      requires Valid()
      modifies bus, regBytes
      ensures bus.trace == old(bus.trace) + ReadTransaction(reg, value)
      ensures regBytes[..] == [LowByte(value), HighByte(value)]
      ensures value == Word(regBytes[1], regBytes[0])
    {
      bus.Start();
      bus.WriteByte(ADDR_W);
      bus.WriteByte(reg);

      bus.Start();
      bus.WriteByte(ADDR_R);
      bus.ClearCarry();
      var first := bus.ReadByte();
      regBytes[1] := first;
      bus.SetCarry();
      var second := bus.ReadByte();
      regBytes[0] := second;

      bus.Stop();

      value := UnionValue(regBytes[..]);
      assert regBytes[..] == [second, first];
    }

    /** Get_Reg16: Read_Reg16 followed by console output of the value. */
    method GetReg16(reg: Byte) returns (value: UShort)
      requires Valid()
      modifies bus, regBytes
      ensures bus.trace == old(bus.trace) + ReadTransaction(reg, value)
      ensures regBytes[..] == [LowByte(value), HighByte(value)]
    {
      value := ReadReg16(reg);
    }

    /** show_temperature: converts `value` step by step in place and stores
        the result in `fixed_point`. */
    method ShowTemperature(value: ULong)
      modifies this`integer, this`fraction
      ensures FixedPoint(integer, fraction) == Decode(value)
    {
      var v := value;
      v := v / 16;
      v := v * DEGREES_PER_BIT % ULONG_MODULUS;
      v := v / FIXED_POINT;

      integer := v / FIXED_POINT;
      fraction := v % FIXED_POINT;
    }

    /** Initialize: start the bus, then compare the identity register with
        the TMP1075's identity.  `id` is the value the device returned. */
    method Initialize() returns (status: int, ghost id: UShort)
      requires Valid()
      modifies bus, regBytes
      ensures bus.trace == old(bus.trace) + InitializeTrace(id)
      ensures status == IdentityStatus(id)
      ensures regBytes[..] == [LowByte(id), HighByte(id)]
    {
      bus.BusInit();
      var read := ReadReg16(DIEID);
      id := read;
      status := if read == DEVICE_ID then SUCCESS else FAILURE;
    }

    /** The main program, without its console output: after a successful
        Initialize it reads the temperature, configuration and both limit
        registers and converts the limits and then the temperature.  The
        ghost results are the values the device returned (zero for reads
        that did not happen). */
    method RunApplication() returns (exitCode: int, ghost id: UShort, ghost temp: UShort,
                                     ghost cfg: UShort, ghost llim: UShort, ghost hlim: UShort)
      requires Valid()
      modifies this, bus, regBytes
      ensures exitCode == 0
      ensures bus.trace == old(bus.trace) + MainTrace(id, temp, cfg, llim, hlim)
      ensures id == DEVICE_ID ==> FixedPoint(integer, fraction) == Decode(temp)
      ensures id == DEVICE_ID ==> 0 <= integer <= 255 && 0 <= fraction <= 99
      ensures id == DEVICE_ID ==> regBytes[..] == [LowByte(hlim), HighByte(hlim)]
      ensures id != DEVICE_ID ==> integer == old(integer) && fraction == old(fraction)
      ensures id != DEVICE_ID ==> regBytes[..] == [LowByte(id), HighByte(id)]
    {
      temp, cfg, llim, hlim := 0, 0, 0, 0;
      var status;
      status, id := Initialize();
      if status == SUCCESS {
        var t := GetReg16(TEMP);
        var c := GetReg16(CFGR);
        var l := GetReg16(LLIM);
        var h := GetReg16(HLIM);
        temp, cfg, llim, hlim := t, c, l, h;

        ShowTemperature(l);
        ShowTemperature(h);
        ShowTemperature(t);
        DecodeBounds(t);
      }
      exitCode := 0;
    }
  }
}
