/** The bus register interface of the encoder prototype (comms.c). The board answers every
    7-bit address; the register is the address minus 0x12. Register 0 holds the accumulated
    encoder value and register 1 the accumulated clicks: a read of either returns its four
    big-endian bytes and zeroes it, a four-byte write replaces it. Any other register is a
    command whose bytes (up to 20) the controller collects with `comms_get_command`.

    The interrupt handler is driven by three events: address match (the address byte and the
    transfer direction are parameters), data ready (the received byte is a parameter, the byte
    sent back in a read is returned) and error. The acknowledge commands it writes to the
    peripheral change nothing that is modelled. */
module EncoderComms {
  import opened Prelude

  /** The address of register 0. */
  const I2C_ADDRESS: u8 := 0x12
  const COMMS_BUFF_SIZE: nat := 20

  /** `comms_state`: 1 while the central reads, 2 while it writes, 0xFF after a bus error. */
  const STATE_READ: u8 := 1
  const STATE_WRITE: u8 := 2
  const STATE_ERROR: u8 := 0xFF

  const VALUE_REGISTER: u8 := 0
  const CLICKS_REGISTER: u8 := 1

  /** The byte sent once a read has used up the buffer. */
  const NO_DATA: u8 := 0xFF

  /** The driver's statics: `comms_addr`, `comms_state`, `clicks`, `data_value`,
      `comms_buffer`, `comms_buffer_offset` and `comms_buffer_size`. */
  datatype Comms = Comms(addr: u8, state: u8, clicks: u32, dataValue: i32, buffer: seq<u8>,
                         offset: u8, size: u8)

  /** What every event keeps: the offset never passes the buffer, the size is the offset plus
      the at most four bytes loaded by a register read, and a read serves only those four. */
  predicate WellFormed(c: Comms)
  {
    |c.buffer| == COMMS_BUFF_SIZE && c.offset as nat <= COMMS_BUFF_SIZE &&
    c.offset <= c.size && c.size as nat <= c.offset as nat + 4 &&
    (c.state == STATE_READ ==> c.size <= 4)
  }

  /** The statics' initial values. */
  const INITIAL: Comms := Comms(0, 0, 0, 0, seq(COMMS_BUFF_SIZE, _ => 0), 0, 0)

  lemma InitialWellFormed()
    ensures WellFormed(INITIAL)
  {
  }

  /** The four bytes of `x`, most significant first, as the read side loads them. */
  function BigEndian(x: u32): (r: seq<u8>)
    ensures |r| == 4
  {
    [x / 0x100_0000, (x / 0x1_0000) % 0x100, (x / 0x100) % 0x100, x % 0x100]
  }

  /** The value of four bytes, most significant first, as the write side assembles them. */
  function FromBigEndian(b: seq<u8>): (x: u32)
    requires |b| == 4
    ensures x as int == ((b[0] as int * 0x100 + b[1]) * 0x100 + b[2]) * 0x100 + b[3]
  {
    ((b[0] as int * 0x100 + b[1]) * 0x100 + b[2]) * 0x100 + b[3]
  }

  /** Decoding the bytes of a value gives the value back. */
  lemma BigEndianRoundTrip(x: u32)
    ensures FromBigEndian(BigEndian(x)) == x
  {
    var b := BigEndian(x);
    assert x / 0x100 == (x / 0x1_0000) * 0x100 + b[2];
    assert x / 0x1_0000 == (x / 0x100_0000) * 0x100 + b[1];
  }

  /** Encoding the value of four bytes gives the bytes back. */
  lemma FromBigEndianRoundTrip(b: seq<u8>)
    requires |b| == 4
    ensures BigEndian(FromBigEndian(b)) == b
  {
    var x := FromBigEndian(b);
    var hi := (b[0] as int * 0x100 + b[1]) * 0x100 + b[2];
    assert x == hi * 0x100 + b[3];
    assert x / 0x100 == hi && x % 0x100 == b[3];
    assert hi / 0x100 == b[0] as int * 0x100 + b[1] && hi % 0x100 == b[2];
    assert x / 0x1_0000 == hi / 0x100;
    assert x / 0x100_0000 == hi / 0x1_0000;
    assert hi / 0x1_0000 == (b[0] as int * 0x100 + b[1]) / 0x100;
  }

  /** The 32 bits of a signed value taken back from a 32-bit pattern are that pattern. */
  lemma BitsOfWrapI32(x: u32)
    ensures BitsOfI32(WrapI32(x)) == x
  {
  }

  /** `comms_update`: both accumulators grow, wrapping at 32 bits. */
  function Updated(c: Comms, newClicks: u32, encoderData: i32): (r: Comms)
    ensures WellFormed(c) ==> WellFormed(r)
    ensures r.(clicks := c.clicks, dataValue := c.dataValue) == c
  {
    c.(clicks := WrapU32(c.clicks + newClicks), dataValue := WrapI32(c.dataValue + encoderData))
  }

  /** Two updates accumulate like one update by the (wrapped) sums. */
  lemma UpdatesAccumulate(c: Comms, clicks1: u32, data1: i32, clicks2: u32, data2: i32)
    ensures Updated(Updated(c, clicks1, data1), clicks2, data2) ==
            Updated(c, WrapU32(clicks1 + clicks2), WrapI32(data1 + data2))
  {
    WrapU32Accumulates(c.clicks, clicks1, clicks2);
    WrapI32Accumulates(c.dataValue, data1, data2);
  }

  lemma WrapU32Accumulates(x: u32, a: u32, b: u32)
    ensures WrapU32(WrapU32(x + a) + b) == WrapU32(x + WrapU32(a + b))
  {
    ModularSum(x, a, b, WrapU32(x + a), WrapU32(a + b), WrapU32(WrapU32(x + a) + b), WrapU32(x + WrapU32(a + b)), 0);
  }

  lemma WrapI32Accumulates(x: i32, a: i32, b: i32)
    ensures WrapI32(WrapI32(x + a) + b) == WrapI32(x + WrapI32(a + b))
  {
    ModularSum(x, a, b, WrapI32(x + a), WrapI32(a + b), WrapI32(WrapI32(x + a) + b), WrapI32(x + WrapI32(a + b)),
               -0x8000_0000);
  }

  /** Two values in the same window of 2^32 that agree modulo 2^32 are equal. */
  lemma ModularSum(a: int, b: int, d: int, ab: int, bd: int, x: int, y: int, low: int)
    requires (a + b - ab) % 0x1_0000_0000 == 0 && (b + d - bd) % 0x1_0000_0000 == 0
    requires (ab + d - x) % 0x1_0000_0000 == 0 && (a + bd - y) % 0x1_0000_0000 == 0
    requires low <= x < low + 0x1_0000_0000 && low <= y < low + 0x1_0000_0000
    ensures x == y
  {
    assert (x - y) % 0x1_0000_0000 == 0 by {
      assert x - y == (ab + d - x) * -1 + (a + bd - y) - (a + b - ab) + (b + d - bd);
    }
  }

  /** The address byte a central sends for `register`: the 7-bit address, then the direction bit
      (1 for a read). */
  function AddressByte(register: u8, read: bool): (b: u8)
    requires register < 0x80 - I2C_ADDRESS
    ensures b / 2 == I2C_ADDRESS + register && (b % 2 == 1 <==> read)
  {
    (I2C_ADDRESS + register) * 2 + (if read then 1 else 0)
  }

  /** The address-match event: select the register, empty the buffer, and for a read of
      register 0 or 1 load that accumulator's bytes and zero it. */
  function AddressMatched(c: Comms, data: u8, read: bool): (r: Comms)
    requires WellFormed(c)
    ensures WellFormed(r)
    ensures r.addr as int == (data / 2 - I2C_ADDRESS as int) % 0x100
    ensures r.offset == 0 && r.state == (if read then STATE_READ else STATE_WRITE)
    ensures read && r.addr == VALUE_REGISTER ==>
      r.size == 4 && r.buffer[..4] == BigEndian(BitsOfI32(c.dataValue)) &&
      r.dataValue == 0 && r.clicks == c.clicks
    ensures read && r.addr == CLICKS_REGISTER ==>
      r.size == 4 && r.buffer[..4] == BigEndian(c.clicks) &&
      r.clicks == 0 && r.dataValue == c.dataValue
    ensures !(read && r.addr in {VALUE_REGISTER, CLICKS_REGISTER}) ==>
      r.size == 0 && r.clicks == c.clicks && r.dataValue == c.dataValue
  {
    var base := c.(addr := WrapU8(data / 2 - I2C_ADDRESS as int), offset := 0, size := 0);
    if !read then
      base.(state := STATE_WRITE)
    else if base.addr == VALUE_REGISTER then
      base.(state := STATE_READ, buffer := BigEndian(BitsOfI32(c.dataValue)) + c.buffer[4..],
            size := 4, dataValue := 0)
    else if base.addr == CLICKS_REGISTER then
      base.(state := STATE_READ, buffer := BigEndian(c.clicks) + c.buffer[4..], size := 4, clicks := 0)
    else
      base.(state := STATE_READ)
  }

  /** The address byte of `register` selects it. */
  lemma AddressSelectsRegister(c: Comms, register: u8, read: bool)
    requires WellFormed(c) && register < 0x80 - I2C_ADDRESS
    ensures AddressMatched(c, AddressByte(register, read), read).addr == register
  {
  }

  /** After four bytes have been written to register 0 or 1, the accumulator becomes their
      value; a write of any other length, or to any other register, changes neither. */
  function Decoded(c: Comms): (r: Comms)
    requires |c.buffer| == COMMS_BUFF_SIZE
    ensures c.size == 4 && c.addr == VALUE_REGISTER ==>
      r == c.(dataValue := WrapI32(FromBigEndian(c.buffer[..4])))
    ensures c.size == 4 && c.addr == CLICKS_REGISTER ==>
      r == c.(clicks := FromBigEndian(c.buffer[..4]))
    ensures !(c.size == 4 && c.addr in {VALUE_REGISTER, CLICKS_REGISTER}) ==> r == c
  {
    if c.size != 4 then c
    else if c.addr == VALUE_REGISTER then c.(dataValue := WrapI32(FromBigEndian(c.buffer[..4])))
    else if c.addr == CLICKS_REGISTER then c.(clicks := FromBigEndian(c.buffer[..4]))
    else c
  }

  /** The data-ready event. In a read, send the next loaded byte, or 0xFF once they are used
      up. Otherwise store the received byte while the buffer has room (further bytes are
      dropped), then apply a complete four-byte register write. */
  function DataReady(c: Comms, dataIn: u8): (r: (Comms, Option<u8>))
    requires WellFormed(c)
    ensures WellFormed(r.0)
    ensures r.0.addr == c.addr && r.0.state == c.state
    ensures c.state == STATE_READ ==>
      r.0 == c.(offset := r.0.offset) &&
      (c.offset < c.size ==> r.1 == Some(c.buffer[c.offset]) && r.0.offset == c.offset + 1) &&
      (c.offset == c.size ==> r.1 == Some(NO_DATA) && r.0.offset == c.offset)
    ensures c.state != STATE_READ ==> r.1 == None
    ensures c.state != STATE_READ && (c.offset as nat) < COMMS_BUFF_SIZE ==>
      r.0.offset == c.offset + 1 && r.0.size == c.size + 1 &&
      r.0.buffer == c.buffer[c.offset := dataIn]
    ensures c.state != STATE_READ && c.offset as nat == COMMS_BUFF_SIZE ==>
      r.0.offset == c.offset && r.0.size == c.size && r.0.buffer == c.buffer
  {
    if c.state == STATE_READ then
      if c.offset < c.size then (c.(offset := c.offset + 1), Some(c.buffer[c.offset]))
      else (c, Some(NO_DATA))
    else
      var stored :=
        if (c.offset as nat) < COMMS_BUFF_SIZE then
          c.(buffer := c.buffer[c.offset := dataIn], offset := c.offset + 1, size := c.size + 1)
        else c;
      (Decoded(stored), None)
  }

  /** The error event. */
  function Errored(c: Comms): (r: Comms)
    requires WellFormed(c)
    ensures WellFormed(r) && r.state == STATE_ERROR && r.(state := c.state) == c
  {
    c.(state := STATE_ERROR)
  }

  /** `SERCOM0_Handler` with its three interrupt flags: data ready is served first, then address
      match, then error. Returns the byte written to the data register, if any. */
  function Handled(c: Comms, dataReady: bool, addressMatch: bool, error: bool, data: u8, read: bool)
    : (r: (Comms, Option<u8>))
    requires WellFormed(c)
    ensures WellFormed(r.0)
    ensures dataReady ==> r == DataReady(c, data)
    ensures !dataReady && addressMatch ==> r == (AddressMatched(c, data, read), None)
    ensures !dataReady && !addressMatch && error ==> r == (Errored(c), None)
    ensures !dataReady && !addressMatch && !error ==> r == (c, None)
  {
    if dataReady then DataReady(c, data)
    else if addressMatch then (AddressMatched(c, data, read), None)
    else if error then (Errored(c), None)
    else (c, None)
  }

  /** `comms_get_command`: the selected register and the bytes written to it. */
  function Command(c: Comms): (r: (u8, seq<u8>))
    requires WellFormed(c) && c.size as nat <= COMMS_BUFF_SIZE
    ensures r.0 == c.addr && |r.1| == c.size as nat
  {
    (c.addr, c.buffer[..c.size])
  }

  /** `n` data-ready events of a read: the driver's state and the bytes it sent. */
  function Reads(c: Comms, n: nat): (r: (Comms, seq<u8>))
    requires WellFormed(c) && c.state == STATE_READ
    ensures WellFormed(r.0) && r.0.state == STATE_READ && |r.1| == n
    decreases n
  {
    if n == 0 then (c, [])
    else
      var step := DataReady(c, 0);
      var rest := Reads(step.0, n - 1);
      (rest.0, [step.1.value] + rest.1)
  }

  /** A read sends the loaded bytes in order, then 0xFF for every further byte. */
  lemma {:induction false} ReadsDrain(c: Comms, n: nat)
    requires WellFormed(c) && c.state == STATE_READ && n >= (c.size - c.offset) as nat
    ensures Reads(c, n).1 == c.buffer[c.offset..c.size] + seq(n - (c.size - c.offset) as nat, _ => NO_DATA)
    ensures Reads(c, n).0 == c.(offset := c.size)
    decreases n
  {
    if n > 0 {
      var step := DataReady(c, 0);
      ReadsDrain(step.0, n - 1);
      if c.offset < c.size {
        assert c.buffer[c.offset..c.size] == [c.buffer[c.offset]] + step.0.buffer[step.0.offset..step.0.size];
      } else {
        assert seq(n - 0, _ => NO_DATA) == [NO_DATA] + seq(n - 1, _ => NO_DATA);
      }
    }
  }

  /** A read of register 0 or 1 returns the four bytes of the accumulator, most significant
      first, then 0xFF, and leaves the accumulator at zero; a read of any other register returns
      only 0xFF. */
  lemma ReadRegister(c: Comms, register: u8)
    requires WellFormed(c) && register < 0x80 - I2C_ADDRESS
    ensures var r := Reads(AddressMatched(c, AddressByte(register, true), true), 5);
      (register == VALUE_REGISTER ==>
        r.1 == BigEndian(BitsOfI32(c.dataValue)) + [NO_DATA] && r.0.dataValue == 0 && r.0.clicks == c.clicks) &&
      (register == CLICKS_REGISTER ==>
        r.1 == BigEndian(c.clicks) + [NO_DATA] && r.0.clicks == 0 && r.0.dataValue == c.dataValue) &&
      (register !in {VALUE_REGISTER, CLICKS_REGISTER} ==>
        r.1 == seq(5, _ => NO_DATA) && r.0.clicks == c.clicks && r.0.dataValue == c.dataValue)
  {
    var m := AddressMatched(c, AddressByte(register, true), true);
    ReadsDrain(m, 5);
    if m.size == 4 {
      assert m.buffer[m.offset..m.size] == m.buffer[..4];
    }
  }

  /** Data-ready events with the bytes of `bytes` in turn (a write). */
  function Writes(c: Comms, bytes: seq<u8>): (r: Comms)
    requires WellFormed(c) && c.state != STATE_READ
    ensures WellFormed(r) && r.addr == c.addr && r.state == c.state
  {
    if bytes == [] then c else DataReady(Writes(c, bytes[..|bytes| - 1]), bytes[|bytes| - 1]).0
  }

  function Min(a: nat, b: nat): nat
  {
    if a < b then a else b
  }

  /** A write keeps its first 20 bytes in order and drops the rest. */
  lemma {:induction false} WritesStore(c: Comms, bytes: seq<u8>)
    requires WellFormed(c) && c.state != STATE_READ && c.offset == 0 && c.size == 0
    ensures var r := Writes(c, bytes); var n := Min(|bytes|, COMMS_BUFF_SIZE);
      r.offset as nat == n && r.size as nat == n && r.buffer[..n] == bytes[..n]
  {
    if bytes != [] {
      var init := bytes[..|bytes| - 1];
      WritesStore(c, init);
      var n := Min(|init|, COMMS_BUFF_SIZE);
      var w := Writes(c, init);
      if |init| < COMMS_BUFF_SIZE {
        assert w.buffer[n := bytes[|bytes| - 1]][..n + 1] == w.buffer[..n] + [bytes[|bytes| - 1]];
        assert bytes[..n + 1] == init + [bytes[|bytes| - 1]];
      } else {
        assert bytes[..COMMS_BUFF_SIZE] == init[..COMMS_BUFF_SIZE];
      }
    }
  }

  /** A write changes the accumulators only when exactly four bytes have arrived for register 0
      or 1; bytes after the fourth leave them as the fourth left them. */
  lemma {:induction false} WritesSetRegister(c: Comms, bytes: seq<u8>)
    requires WellFormed(c) && c.state != STATE_READ && c.offset == 0 && c.size == 0
    ensures var r := Writes(c, bytes);
      (|bytes| >= 4 && c.addr == VALUE_REGISTER ==>
        r.dataValue == WrapI32(FromBigEndian(bytes[..4])) && r.clicks == c.clicks) &&
      (|bytes| >= 4 && c.addr == CLICKS_REGISTER ==>
        r.clicks == FromBigEndian(bytes[..4]) && r.dataValue == c.dataValue) &&
      (|bytes| < 4 || c.addr !in {VALUE_REGISTER, CLICKS_REGISTER} ==>
        r.clicks == c.clicks && r.dataValue == c.dataValue)
  {
    if bytes != [] {
      var init := bytes[..|bytes| - 1];
      WritesSetRegister(c, init);
      WritesStore(c, init);
      WritesStore(c, bytes);
      if |bytes| == 4 {
        assert bytes[..4] == bytes;
      } else if |bytes| > 4 {
        assert init[..4] == bytes[..4];
      }
    }
  }

  /** A command write leaves the register and the (at most 20) bytes for `comms_get_command`. */
  lemma WriteCommand(c: Comms, register: u8, bytes: seq<u8>)
    requires WellFormed(c) && register < 0x80 - I2C_ADDRESS
    ensures var r := Writes(AddressMatched(c, AddressByte(register, false), false), bytes);
      r.size as nat <= COMMS_BUFF_SIZE &&
      Command(r) == (register, bytes[..Min(|bytes|, COMMS_BUFF_SIZE)])
  {
    var m := AddressMatched(c, AddressByte(register, false), false);
    WritesStore(m, bytes);
  }

  /** Writing four bytes to register 0 or 1 and reading the register back returns the same
      bytes. */
  lemma WriteThenReadBack(c: Comms, register: u8, bytes: seq<u8>)
    requires WellFormed(c) && register in {VALUE_REGISTER, CLICKS_REGISTER} && |bytes| == 4
    ensures var w := Writes(AddressMatched(c, AddressByte(register, false), false), bytes);
      Reads(AddressMatched(w, AddressByte(register, true), true), 5).1 == bytes + [NO_DATA]
  {
    var m := AddressMatched(c, AddressByte(register, false), false);
    WritesSetRegister(m, bytes);
    assert bytes[..4] == bytes;
    var w := Writes(m, bytes);
    ReadRegister(w, register);
    FromBigEndianRoundTrip(bytes);
    if register == VALUE_REGISTER {
      BitsOfWrapI32(FromBigEndian(bytes));
    }
  }

  /** Clicks counted by `comms_update` are read back as their (wrapped) total. */
  lemma UpdateThenRead(c: Comms, newClicks: u32, encoderData: i32)
    requires WellFormed(c)
    ensures var u := Updated(c, newClicks, encoderData);
      Reads(AddressMatched(u, AddressByte(CLICKS_REGISTER, true), true), 5).1 ==
        BigEndian(WrapU32(c.clicks + newClicks)) + [NO_DATA] &&
      Reads(AddressMatched(u, AddressByte(VALUE_REGISTER, true), true), 5).1 ==
        BigEndian(BitsOfI32(WrapI32(c.dataValue + encoderData))) + [NO_DATA]
  {
    var u := Updated(c, newClicks, encoderData);
    ReadRegister(u, CLICKS_REGISTER);
    ReadRegister(u, VALUE_REGISTER);
  }

  class CommsDriver {
    var addr: u8
    var state: u8
    var clicks: u32
    var dataValue: i32
    const buffer: array<u8>
    var offset: u8
    var size: u8

    ghost function Model(): Comms
      reads this, buffer
    {
      Comms(addr, state, clicks, dataValue, buffer[..], offset, size)
    }

    ghost predicate Valid()
      reads this, buffer
    {
      WellFormed(Model())
    }

    /** The statics' initial values. */
    constructor()
      ensures Model() == INITIAL && fresh(buffer)
    {
      addr, state, clicks, dataValue := 0, 0, 0, 0;
      buffer := new u8[COMMS_BUFF_SIZE](_ => 0);
      offset, size := 0, 0;
    }

    /** `comms_update`. */
    method Update(newClicks: u32, encoderData: i32)
      modifies this
      ensures Model() == Updated(old(Model()), newClicks, encoderData)
    {
      clicks := WrapU32(clicks as int + newClicks as int);
      dataValue := WrapI32(dataValue as int + encoderData as int);
    }

    /** `comms_get_command`: the register, and the buffered bytes copied to the front of
        `data`; the rest of `data` keeps its old bytes. */
    method GetCommand(data: array<u8>) returns (command: u8)
      requires Valid() && size as nat <= COMMS_BUFF_SIZE && data.Length >= size as nat
      requires data != buffer
      modifies data
      ensures (command, data[..size]) == Command(Model())
      ensures data[size..] == old(data[size..])
    {
      command := addr;
      var i := 0;
      while i < size as nat
        invariant i <= size as nat
        invariant data[..i] == buffer[..i]
        invariant data[size..] == old(data[size..])
      {
        data[i] := buffer[i];
        i := i + 1;
      }
    }

    /** `SERCOM0_Handler`. */
    method Handler(dataReady: bool, addressMatch: bool, error: bool, data: u8, read: bool)
      returns (dataOut: Option<u8>)
      requires Valid()
      modifies this, buffer
      ensures Valid()
      ensures (Model(), dataOut) == Handled(old(Model()), dataReady, addressMatch, error, data, read)
    {
      dataOut := None;
      if dataReady {
        if state == STATE_READ {
          if offset < size {
            dataOut := Some(buffer[offset]);
            offset := offset + 1;
          } else {
            dataOut := Some(NO_DATA);
          }
        } else {
          if (offset as nat) < COMMS_BUFF_SIZE {
            buffer[offset] := data;
            offset := offset + 1;
            size := size + 1;
          }
          if addr == VALUE_REGISTER {
            if size == 4 {
              dataValue := WrapI32(FromBigEndian(buffer[..4]));
            }
          } else if addr == CLICKS_REGISTER {
            if size == 4 {
              clicks := FromBigEndian(buffer[..4]);
            }
          }
        }
      } else if addressMatch {
        addr := WrapU8(data as int / 2 - I2C_ADDRESS as int);
        offset, size := 0, 0;
        if read {
          state := STATE_READ;
          if addr == VALUE_REGISTER {
            LoadBigEndian(BitsOfI32(dataValue));
            dataValue := 0;
          } else if addr == CLICKS_REGISTER {
            LoadBigEndian(clicks);
            clicks := 0;
          }
        } else {
          state := STATE_WRITE;
        }
      } else if error {
        state := STATE_ERROR;
      }
    }

    /** The four `comms_buffer[comms_buffer_size++] = value >> k` stores of a register read. */
    method LoadBigEndian(value: u32)
      requires buffer.Length == COMMS_BUFF_SIZE && size == 0
      modifies this, buffer
      ensures size == 4 && buffer[..] == BigEndian(value) + old(buffer[4..])
      ensures unchanged(this`addr) && unchanged(this`state) && unchanged(this`clicks)
      ensures unchanged(this`dataValue) && unchanged(this`offset)
    {
      buffer[size] := value / 0x100_0000;
      size := size + 1;
      buffer[size] := (value / 0x1_0000) % 0x100;
      size := size + 1;
      buffer[size] := (value / 0x100) % 0x100;
      size := size + 1;
      buffer[size] := value % 0x100;
      size := size + 1;
      assert buffer[..] == BigEndian(value) + old(buffer[4..]);
    }
  }
}
