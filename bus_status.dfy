/** The bus-side transaction tracker of the keyboard board (`BusStatus` in the comms crate).
    The interrupt handler feeds it four kinds of bus event: an address match with its R/W bit,
    a byte written by the controller, a byte requested by the controller and a STOP
    condition (START, repeated START and STOP as in sections 3.1.4 and 3.1.10 of the NXP
    I2C-bus specification UM10204). It keeps at most one finalised `BusCommand` in a take-once
    mailbox and serves response bytes, answering 0xFF once they run out.

    The class keeps the firmware's fields and its 20-byte array; `Model()` is its value, and
    each method is specified by a pure step function on that value. The lemmas about the step
    functions state the protocol. */
module Comms {
  import opened Prelude

  /** Length of the shared data array, in bytes. */
  const BUFFER_SIZE: nat := 20
  /** Byte served when the controller reads past the available data. */
  const NO_DATA: u8 := 0xFF

  /** A finalised transaction: the selected register, a copy of the whole data array and the
      number of payload bytes, with the direction of the transaction it closed. */
  datatype BusCommand = BusCommand(register: u8, data: seq<u8>, dataSize: nat, readDirection: bool)

  /** The value of a `BusStatus`, field by field. */
  datatype BusModel = BusModel(
    lastRegister: Option<u8>,
    readDirection: bool,
    data: seq<u8>,
    dataIndex: nat,
    dataSize: nat,
    command: Option<BusCommand>,
    stopped: bool)

  /** What every operation preserves: the 20-byte array, and the read/write cursor never
      passes the number of valid bytes. */
  ghost predicate Inv(m: BusModel) {
    |m.data| == BUFFER_SIZE && m.dataIndex <= m.dataSize &&
    (m.command.Some? ==> |m.command.value.data| == BUFFER_SIZE)
  }

  /** The state `BusStatus::new` builds. */
  function Initial(): (r: BusModel)
    ensures Inv(r) && r.stopped && r.lastRegister.None? && r.command.None?
    ensures r.dataIndex == 0 && r.dataSize == 0 && ReadStep(r).1 == NO_DATA
  {
    BusModel(None, false, seq(BUFFER_SIZE, _ => 0), 0, 0, None, true)
  }

  /** `build_command`: snapshot the transaction into the mailbox when a register is known. */
  function Finalize(m: BusModel): (r: BusModel)
    requires Inv(m)
    ensures Inv(r)
  {
    match m.lastRegister
    case None => m
    case Some(reg) => m.(command := Some(BusCommand(reg, m.data, m.dataIndex, m.readDirection)))
  }

  /** `addr`: an address match. A repeated START first finalises the open transaction; a
      write-direction address forgets the register and the stored data. */
  function AddrStep(m: BusModel, read: bool): (r: BusModel)
    requires Inv(m)
    ensures Inv(r)
  {
    var closed := if !m.stopped then Finalize(m) else m;
    var begun := closed.(stopped := false, readDirection := read, dataIndex := 0);
    if !read then begun.(lastRegister := None, dataSize := 0) else begun
  }

  /** `write_data`: the first byte selects the register, later bytes are stored. The source
      indexes the array without a bound check, so writing past it is excluded. */
  function WriteStep(m: BusModel, b: u8): (r: BusModel)
    requires Inv(m)
    requires m.lastRegister.Some? ==> m.dataIndex < BUFFER_SIZE
    ensures Inv(r)
  {
    if m.lastRegister.None? then m.(lastRegister := Some(b))
    else m.(data := m.data[m.dataIndex := b], dataIndex := m.dataIndex + 1, dataSize := m.dataSize + 1)
  }

  /** `read_data`: the next valid byte, or the sentinel without moving the cursor. */
  function ReadStep(m: BusModel): (r: (BusModel, u8))
    requires Inv(m)
    requires m.dataIndex < m.dataSize ==> m.dataIndex < BUFFER_SIZE
    ensures Inv(r.0)
  {
    if m.dataIndex < m.dataSize then (m.(dataIndex := m.dataIndex + 1), m.data[m.dataIndex])
    else (m, NO_DATA)
  }

  /** `stop`: finalise, then go idle. */
  function StopStep(m: BusModel): (r: BusModel)
    requires Inv(m)
    ensures Inv(r) && r.stopped
    ensures m.lastRegister.Some? ==>
      r.command == Some(BusCommand(m.lastRegister.value, m.data, m.dataIndex, m.readDirection))
    ensures m.lastRegister.None? ==> r.command == m.command
    ensures r.lastRegister == m.lastRegister && r.readDirection == m.readDirection &&
      r.data == m.data && r.dataIndex == m.dataIndex && r.dataSize == m.dataSize
  {
    Finalize(m).(stopped := true)
  }

  /** `process`: take the mailbox, leaving it empty. */
  function ProcessStep(m: BusModel): (r: (BusModel, Option<BusCommand>))
    requires Inv(m)
    ensures Inv(r.0)
  {
    (m.(command := None), m.command)
  }

  /** `provide_data`: install a response only for the register currently selected. */
  function ProvideStep(m: BusModel, register: u8, buf: seq<u8>, size: nat): (r: BusModel)
    requires Inv(m) && |buf| == BUFFER_SIZE
    ensures Inv(r)
  {
    if Some(register) == m.lastRegister then m.(data := buf, dataSize := size, dataIndex := 0) else m
  }

  class BusStatus {
    var lastRegister: Option<u8>
    var readDirection: bool
    const data: array<u8>
    var dataIndex: nat
    var dataSize: nat
    var command: Option<BusCommand>
    var stopped: bool

    ghost predicate Valid()
      reads this, data
    {
      Inv(Model())
    }

    ghost function Model(): BusModel
      reads this, data
    {
      BusModel(lastRegister, readDirection, data[..], dataIndex, dataSize, command, stopped)
    }

    constructor ()
      ensures Valid() && fresh(data)
      ensures Model() == Initial()
      ensures stopped && lastRegister == None && command == None && dataIndex == 0 && dataSize == 0
    {
      lastRegister := None;
      readDirection := false;
      data := new u8[BUFFER_SIZE](_ => 0);
      dataIndex := 0;
      dataSize := 0;
      command := None;
      stopped := true;
    }

    method BuildCommand()
      requires Valid()
      modifies this
      ensures Valid()
      ensures Model() == Finalize(old(Model()))
    {
      if lastRegister.Some? {
        command := Some(BusCommand(lastRegister.value, data[..], dataIndex, readDirection));
      }
    }

    method Addr(read: bool)
      requires Valid()
      modifies this
      ensures Valid()
      ensures Model() == AddrStep(old(Model()), read)
    {
      if !stopped {
        BuildCommand();
      }
      stopped := false;
      readDirection := read;
      dataIndex := 0;
      if !read {
        lastRegister := None;
        dataSize := 0;
      }
    }

    /** Whether the current transaction is a read (the interrupt handler uses it to route
        data-ready events to `ReadData` or `WriteData`). */
    method IsReading() returns (r: bool)
      requires Valid()
      ensures r == Model().readDirection
    {
      r := readDirection;
    }

    method WriteData(b: u8) returns (ok: bool)
      requires Valid()
      requires lastRegister.Some? ==> dataIndex < BUFFER_SIZE
      modifies this, data
      ensures Valid()
      ensures ok && Model() == WriteStep(old(Model()), b)
    {
      if lastRegister.None? {
        lastRegister := Some(b);
      } else {
        data[dataIndex] := b;
        dataIndex := dataIndex + 1;
        dataSize := dataSize + 1;
      }
      ok := true;
    }

    method ReadData() returns (r: u8)
      requires Valid()
      requires dataIndex < dataSize ==> dataIndex < BUFFER_SIZE
      modifies this
      ensures Valid()
      ensures (Model(), r) == ReadStep(old(Model()))
    {
      if dataIndex < dataSize {
        r := data[dataIndex];
        dataIndex := dataIndex + 1;
      } else {
        r := NO_DATA;
      }
    }

    method Stop()
      requires Valid()
      modifies this
      ensures Valid()
      ensures Model() == StopStep(old(Model()))
    {
      BuildCommand();
      stopped := true;
    }

    method Process() returns (r: Option<BusCommand>)
      requires Valid()
      modifies this
      ensures Valid()
      ensures (Model(), r) == ProcessStep(old(Model()))
    {
      r := command;
      command := None;
    }

    method ProvideData(register: u8, buf: seq<u8>, size: nat)
      requires Valid() && |buf| == BUFFER_SIZE
      modifies this, data
      ensures Valid()
      ensures Model() == ProvideStep(old(Model()), register, buf, size)
    {
      if Some(register) == lastRegister {
        forall i | 0 <= i < BUFFER_SIZE {
          data[i] := buf[i];
        }
        dataSize := size;
        dataIndex := 0;
      }
    }
  }

  // ---------------------------------------------------------------------------------------
  // Multi-event traces

  /** The controller writing `bytes` one after another. */
  function WriteAll(m: BusModel, bytes: seq<u8>): (r: BusModel)
    requires Inv(m) && m.lastRegister.Some? && m.dataIndex + |bytes| <= BUFFER_SIZE
    ensures Inv(r)
    decreases |bytes|
  {
    if bytes == [] then m else WriteAll(WriteStep(m, bytes[0]), bytes[1..])
  }

  /** The controller requesting `k` bytes in a row; the second component is what it receives. */
  function ReadMany(m: BusModel, k: nat): (r: (BusModel, seq<u8>))
    requires Inv(m) && m.dataSize <= BUFFER_SIZE
    ensures Inv(r.0) && r.0.dataSize == m.dataSize && |r.1| == k
    decreases k
  {
    if k == 0 then (m, [])
    else
      var (m1, b) := ReadStep(m);
      var (m2, rest) := ReadMany(m1, k - 1);
      (m2, [b] + rest)
  }

  /** `n` copies of the sentinel byte. */
  function Sentinels(n: nat): (r: seq<u8>)
    ensures |r| == n && forall i :: 0 <= i < n ==> r[i] == NO_DATA
  {
    seq(n, _ => NO_DATA)
  }

  function Min(a: nat, b: nat): nat { if a < b then a else b }

  /** Bytes written after the register byte land in order at the cursor, and nothing else
      changes: no command appears, the register and the direction stay. */
  lemma {:induction false} WriteAllStores(m: BusModel, bytes: seq<u8>)
    requires Inv(m) && m.lastRegister.Some? && m.dataIndex + |bytes| <= BUFFER_SIZE
    ensures var r := WriteAll(m, bytes);
      r.dataIndex == m.dataIndex + |bytes| && r.dataSize == m.dataSize + |bytes| &&
      r.data[m.dataIndex .. r.dataIndex] == bytes &&
      r.data[..m.dataIndex] == m.data[..m.dataIndex] &&
      r.lastRegister == m.lastRegister && r.command == m.command &&
      r.stopped == m.stopped && r.readDirection == m.readDirection
    decreases |bytes|
  {
    if bytes != [] {
      var m1 := WriteStep(m, bytes[0]);
      WriteAllStores(m1, bytes[1..]);
      var r := WriteAll(m1, bytes[1..]);
      assert WriteAll(m, bytes) == r;
      assert r.data[..m1.dataIndex] == m1.data[..m1.dataIndex];
      assert r.data[..m.dataIndex] == m.data[..m.dataIndex] by {
        assert r.data[..m.dataIndex] == r.data[..m1.dataIndex][..m.dataIndex];
        assert m1.data[..m1.dataIndex][..m.dataIndex] == m.data[..m.dataIndex];
      }
      assert r.data[m.dataIndex] == bytes[0] by {
        assert r.data[m.dataIndex] == r.data[..m1.dataIndex][m.dataIndex];
      }
      assert r.data[m.dataIndex .. r.dataIndex] == [bytes[0]] + r.data[m1.dataIndex .. r.dataIndex];
      assert bytes == [bytes[0]] + bytes[1..];
    }
  }

  /** A complete write transaction (address for write, register byte, payload, STOP) leaves
      exactly one command carrying that register, payload and the write direction; no command
      exists before the STOP beyond what the address phase itself finalised, and a second
      `process` finds the mailbox empty. */
  lemma WriteTransactionYieldsOneCommand(m: BusModel, reg: u8, payload: seq<u8>)
    requires Inv(m) && |payload| <= BUFFER_SIZE
    ensures var a := AddrStep(m, false);
      var w := WriteAll(WriteStep(a, reg), payload);
      var (after, cmd) := ProcessStep(StopStep(w));
      w.command == a.command &&
      cmd.Some? && cmd.value.register == reg && !cmd.value.readDirection &&
      cmd.value.dataSize == |payload| && cmd.value.data[..|payload|] == payload &&
      ProcessStep(after).1 == None
  {
    var a := AddrStep(m, false);
    WriteAllStores(WriteStep(a, reg), payload);
  }

  /** The first byte after a write-direction address selects the register and stores nothing. */
  lemma FirstByteSelectsRegister(m: BusModel, reg: u8)
    requires Inv(m)
    ensures var w := WriteStep(AddrStep(m, false), reg);
      w.lastRegister == Some(reg) && w.dataSize == 0 && w.dataIndex == 0 && !w.readDirection &&
      w.command == AddrStep(m, false).command
  {
  }

  /** A repeated START closes the open transaction with the direction it had, whatever the
      direction of the new address. */
  lemma RepeatedStartFinalises(m: BusModel, read: bool)
    requires Inv(m) && !m.stopped && m.lastRegister.Some?
    ensures AddrStep(m, read).command ==
      Some(BusCommand(m.lastRegister.value, m.data, m.dataIndex, m.readDirection))
  {
  }

  /** Without a selected register no command is ever built, by STOP or by a repeated START. */
  lemma NoRegisterNoCommand(m: BusModel, read: bool)
    requires Inv(m) && m.lastRegister.None?
    ensures StopStep(m).command == m.command && AddrStep(m, read).command == m.command
  {
  }

  /** Only finalisation fills the mailbox: data bytes, reads and installed responses leave it
      as it is. */
  lemma DataEventsKeepMailbox(m: BusModel, b: u8, register: u8, buf: seq<u8>, size: nat)
    requires Inv(m) && |buf| == BUFFER_SIZE
    requires m.lastRegister.Some? ==> m.dataIndex < BUFFER_SIZE
    requires m.dataIndex < m.dataSize ==> m.dataIndex < BUFFER_SIZE
    ensures WriteStep(m, b).command == m.command
    ensures ReadStep(m).0.command == m.command
    ensures ProvideStep(m, register, buf, size).command == m.command
  {
  }

  /** Taking the mailbox twice in a row yields nothing the second time. */
  lemma ProcessAtMostOnce(m: BusModel)
    requires Inv(m)
    ensures ProcessStep(ProcessStep(m).0).1 == None
    ensures ProcessStep(m).1 == m.command
  {
  }

  /** What a read of `k` bytes should see: the valid bytes from the cursor on, then only the
      sentinel. */
  function Served(m: BusModel, k: nat): (r: seq<u8>)
    requires Inv(m) && m.dataSize <= BUFFER_SIZE
    ensures |r| == k
  {
    var n := Min(k, m.dataSize - m.dataIndex);
    m.data[m.dataIndex .. m.dataIndex + n] + Sentinels(k - n)
  }

  /** Reading serves the valid bytes from the cursor on, then only the sentinel. */
  lemma {:induction false} ReadManyServes(m: BusModel, k: nat)
    requires Inv(m) && m.dataSize <= BUFFER_SIZE
    ensures ReadMany(m, k).1 == Served(m, k)
    decreases k
  {
    if k > 0 {
      var (m1, b) := ReadStep(m);
      ReadManyServes(m1, k - 1);
      ServedStep(m, k);
    }
  }

  /** One byte read moves the served window on by one. */
  lemma ServedStep(m: BusModel, k: nat)
    requires Inv(m) && m.dataSize <= BUFFER_SIZE && k > 0
    ensures var (m1, b) := ReadStep(m); Served(m, k) == [b] + Served(m1, k - 1)
  {
    var (m1, b) := ReadStep(m);
    if m.dataIndex < m.dataSize {
      var n := Min(k, m.dataSize - m.dataIndex);
      var tail := m.data[m1.dataIndex .. m1.dataIndex + (n - 1)];
      assert m.data[m.dataIndex .. m.dataIndex + n] == [b] + tail;
    } else {
      assert Sentinels(k) == [NO_DATA] + Sentinels(k - 1);
    }
  }

  /** `k` reads move the cursor over the valid bytes they serve and change nothing else. */
  lemma {:induction false} ReadManyCursor(m: BusModel, k: nat)
    requires Inv(m) && m.dataSize <= BUFFER_SIZE
    ensures ReadMany(m, k).0 == m.(dataIndex := m.dataIndex + Min(k, m.dataSize - m.dataIndex))
    decreases k
  {
    if k > 0 {
      var (m1, b) := ReadStep(m);
      ReadManyCursor(m1, k - 1);
    }
  }

  /** A read transaction on the selected register, closed by STOP, leaves a read-direction
      command with the register, the data array and the number of bytes actually served. */
  lemma ReadTransactionYieldsReadCommand(m: BusModel, k: nat)
    requires Inv(m) && m.lastRegister.Some? && m.dataSize <= BUFFER_SIZE
    ensures var s := StopStep(ReadMany(AddrStep(m, true), k).0);
      s.stopped &&
      s.command == Some(BusCommand(m.lastRegister.value, m.data, Min(k, m.dataSize), true))
  {
    var a := AddrStep(m, true);
    ReadManyCursor(a, k);
  }

  /** A response installed for the selected register and then read in a read transaction is
      served byte for byte, followed by the sentinel. */
  lemma ProvidedResponseIsServed(m: BusModel, reg: u8, buf: seq<u8>, size: nat, k: nat)
    requires Inv(m) && m.lastRegister == Some(reg) && |buf| == BUFFER_SIZE && size <= BUFFER_SIZE
    ensures var p := AddrStep(ProvideStep(m, reg, buf, size), true);
      ReadMany(p, k).1 == buf[..Min(k, size)] + Sentinels(k - Min(k, size))
  {
    var p := AddrStep(ProvideStep(m, reg, buf, size), true);
    ReadManyServes(p, k);
    assert p.data[0 .. Min(k, size)] == buf[..Min(k, size)];
  }

  /** A response offered for another register changes nothing. */
  lemma ProvideForOtherRegisterIgnored(m: BusModel, reg: u8, buf: seq<u8>, size: nat)
    requires Inv(m) && m.lastRegister != Some(reg) && |buf| == BUFFER_SIZE
    ensures ProvideStep(m, reg, buf, size) == m
  {
  }

  /** A write-direction address forgets the register and the response, so a following read
      gets the sentinel; a read-direction address keeps both. */
  lemma WriteAddressForgetsResponse(m: BusModel)
    requires Inv(m)
    ensures AddrStep(m, false).lastRegister == None && AddrStep(m, false).dataSize == 0
    ensures ReadStep(AddrStep(m, false)).1 == NO_DATA
    ensures AddrStep(m, true).lastRegister == m.lastRegister && AddrStep(m, true).dataSize == m.dataSize
  {
  }

  // ---------------------------------------------------------------------------------------
  // The unit-test traces of the comms crate, replayed on the model

  /** Write 0x12 then 0xAA: the register is 0x12 and 0xAA sits at data[0]. */
  lemma TraceWriteRegisterThenData()
    ensures var a := AddrStep(Initial(), false);
      var w1 := WriteStep(a, 0x12);
      var w2 := WriteStep(w1, 0xAA);
      !a.readDirection && w1.lastRegister == Some(0x12) && w1.dataSize == 0 && w1.dataIndex == 0 &&
      w2.data[0] == 0xAA && w2.dataSize == 1 && w2.dataIndex == 1 &&
      ProcessStep(w2).1 == None
  {
  }

  /** Write 0x12, then a read-direction address without STOP: the command is register 0x12,
      no payload, write direction; a second `process` is empty. */
  lemma TraceRestartGivesWriteCommand()
    ensures var w := WriteStep(AddrStep(Initial(), false), 0x12);
      var (after, cmd) := ProcessStep(AddrStep(w, true));
      cmd == Some(BusCommand(0x12, Initial().data, 0, false)) && ProcessStep(after).1 == None
  {
  }

  /** Write 0x12, STOP, process, then a read-direction address: only one command, and no data
      is served (the register was never answered). */
  lemma TraceUnansweredRegisterReadsSentinel()
    ensures var s := StopStep(WriteStep(AddrStep(Initial(), false), 0x12));
      var (after, cmd) := ProcessStep(s);
      var r := AddrStep(after, true);
      cmd.Some? && cmd.value.register == 0x12 && cmd.value.dataSize == 0 &&
      s.lastRegister == Some(0x12) && !s.readDirection &&
      r.readDirection && ProcessStep(r).1 == None && ReadStep(r).1 == NO_DATA
  {
  }

  /** The five bytes 12 34 56 78 9A provided for the selected register are read back, then 0xFF. */
  lemma TraceProvidedDataReadBack()
    ensures var buf := [0x12, 0x34, 0x56, 0x78, 0x9A] + seq(15, _ => 0);
      var s := StopStep(WriteStep(AddrStep(Initial(), false), 0x12));
      var p := AddrStep(ProvideStep(ProcessStep(s).0, 0x12, buf, 5), true);
      ReadMany(p, 6).1 == [0x12, 0x34, 0x56, 0x78, 0x9A, 0xFF]
  {
    var buf: seq<u8> := [0x12, 0x34, 0x56, 0x78, 0x9A] + seq(15, _ => 0);
    var s := StopStep(WriteStep(AddrStep(Initial(), false), 0x12));
    ProvidedResponseIsServed(ProcessStep(s).0, 0x12, buf, 5, 6);
    assert buf[..5] == [0x12, 0x34, 0x56, 0x78, 0x9A];
  }

  /** Data provided for register 0xAA while 0x12 is selected is dropped: the read gets 0xFF. */
  lemma TraceWrongRegisterDataDropped()
    ensures var buf := [0x12, 0x34, 0x56, 0x78, 0x9A] + seq(15, _ => 0);
      var s := StopStep(WriteStep(AddrStep(Initial(), false), 0x12));
      var p := AddrStep(ProvideStep(ProcessStep(s).0, 0xAA, buf, 5), true);
      ReadStep(p).1 == NO_DATA
  {
  }

  /** Data provided, then a second write transaction selecting the same register and a
      repeated START into a read: the read gets 0xFF, the old response is gone. */
  lemma TraceSecondWriteDropsResponse()
    ensures var buf := [0x12, 0x34, 0x56, 0x78, 0x9A] + seq(15, _ => 0);
      var s := StopStep(WriteStep(AddrStep(Initial(), false), 0x12));
      var p := ProvideStep(ProcessStep(s).0, 0x12, buf, 5);
      var r := AddrStep(WriteStep(AddrStep(p, false), 0x12), true);
      r.readDirection && ReadStep(r).1 == NO_DATA
  {
  }
}
