/** The register protocol of the keyboard board (firmware/src/protocol.rs) and the main loop
    that connects it to the bus tracker and the note engine (firmware/src/main.rs).
    Register 0x10 is the only register: writing one byte 1..8 selects that octave, and reading
    it returns one byte, the current octave. */
module Protocol {
  import opened Prelude
  import Comms
  import Synth
  import KeyboardMatrix

  /** The octave register. */
  const OCTAVE_REGISTER: u8 := 0x10

  /** The octave a command asks for, when it is a well-formed octave write. */
  function RequestedOctave(command: Comms.BusCommand): (r: Option<u8>)
    requires |command.data| == Comms.BUFFER_SIZE
    ensures r.Some? <==>
      command.register == OCTAVE_REGISTER && command.dataSize == 1 && 1 <= command.data[0] <= 8
    ensures r.Some? ==> r.value == command.data[0] && 1 <= r.value <= 8
  {
    if command.register == OCTAVE_REGISTER && command.dataSize == 1 && 1 <= command.data[0] < 9
    then Some(command.data[0])
    else None
  }

  /** `process_command`: an octave write with a one-byte payload in 1..8 selects that octave;
      every other command leaves the engine as it is. */
  method ProcessCommand(command: Comms.BusCommand, synth: Synth.SynthEngine)
    requires synth.Valid() && |command.data| == Comms.BUFFER_SIZE
    modifies synth
    ensures synth.Valid()
    ensures RequestedOctave(command).Some? ==>
      synth.octave == command.data[0] && synth.dirty &&
      synth.noteIndexState[..] == old(synth.noteIndexState[..])
    ensures RequestedOctave(command).None? ==>
      synth.octave == old(synth.octave) && synth.dirty == old(synth.dirty)
  {
    if command.register == OCTAVE_REGISTER {
      if command.dataSize == 1 && 1 <= command.data[0] < 9 {
        synth.SetOctave(command.data[0]);
      }
    }
  }

  /** `build_response`: the 20-byte answer and its length for a register, or nothing for a
      register the board does not have. */
  function BuildResponse(register: u8, octave: u8): (r: Option<(seq<u8>, nat)>)
    ensures r.Some? <==> register == OCTAVE_REGISTER
    ensures r.Some? ==>
      |r.value.0| == Comms.BUFFER_SIZE && r.value.1 == 1 && r.value.0[0] == octave &&
      forall i :: 1 <= i < Comms.BUFFER_SIZE ==> r.value.0[i] == 0
  {
    if register == OCTAVE_REGISTER then Some(([octave] + seq(Comms.BUFFER_SIZE - 1, _ => 0), 1))
    else None
  }

  /** Whatever octave was selected is what a read of the octave register serves: the response,
      once installed for the selected register, reads back as the octave and then as 0xFF. */
  lemma ResponseReadsBack(m: Comms.BusModel, octave: u8)
    requires Comms.Inv(m) && m.lastRegister == Some(OCTAVE_REGISTER)
    ensures var (buf, size) := BuildResponse(OCTAVE_REGISTER, octave).value;
      var read := Comms.AddrStep(Comms.ProvideStep(m, OCTAVE_REGISTER, buf, size), true);
      Comms.ReadMany(read, 2).1 == [octave, Comms.NO_DATA]
  {
    var (buf, size) := BuildResponse(OCTAVE_REGISTER, octave).value;
    Comms.ReadManyServes(Comms.AddrStep(Comms.ProvideStep(m, OCTAVE_REGISTER, buf, size), true), 2);
  }

  /** The register a poll answers for: that of the command just taken, else the previous one. */
  function NextRegister(command: Option<Comms.BusCommand>, register: u8): (r: u8)
    ensures command.Some? ==> r == command.value.register
    ensures command.None? ==> r == register
  {
    if command.Some? then command.value.register else register
  }

  /** The bus state after a poll has taken `command` out of the mailbox and offered the answer
      for `register` with the engine at `octave`. */
  function PolledBus(m: Comms.BusModel, register: u8, octave: u8): (r: Comms.BusModel)
    requires Comms.Inv(m)
    ensures Comms.Inv(r)
    ensures r.command == m.command && r.lastRegister == m.lastRegister
  {
    match BuildResponse(register, octave)
    case Some((buf, size)) => Comms.ProvideStep(m, register, buf, size)
    case None => m
  }

  /** One pass of the main loop, without the illumination engine: take the pending command and
      apply it, run the note engine on the scanned keys, and offer the answer for the last
      register written. `register` is the loop's `communication_register`. */
  method Poll(bus: Comms.BusStatus, synth: Synth.SynthEngine, register: u8,
              keys: KeyboardMatrix.KeyboardState) returns (newRegister: u8)
    requires bus.Valid() && synth.Valid() && keys.WellFormed()
    requires 1 <= synth.octave <= 8
    modifies bus, bus.data, synth, synth.noteIndexState
    ensures bus.Valid() && synth.Valid()
    ensures var taken := Comms.ProcessStep(old(bus.Model()));
      var selected := if taken.1.Some? && RequestedOctave(taken.1.value).Some?
                      then RequestedOctave(taken.1.value).value else old(synth.octave);
      newRegister == NextRegister(taken.1, register) &&
      synth.octave == Synth.OctaveAfter(selected, keys.pressed, Synth.OCTAVE_KEYS) &&
      synth.noteIndexState[..] == Synth.UpdatedNotes(old(synth.noteIndexState[..]), synth.octave, keys.state) &&
      bus.Model() == PolledBus(taken.0, newRegister, synth.octave)
  {
    var command := bus.Process();
    newRegister := register;
    if command.Some? {
      newRegister := command.value.register;
      ProcessCommand(command.value, synth);
    }
    Synth.OctaveSelection(synth.octave, keys.pressed, Synth.OCTAVE_KEYS);
    synth.Update(keys);
    var response := BuildResponse(newRegister, synth.octave);
    if response.Some? {
      bus.ProvideData(newRegister, response.value.0, response.value.1);
    }
  }

  /** The bus after the controller has written `[0x10, value]` to an idle board and stopped. */
  function OctaveWritten(value: u8): (r: Comms.BusModel)
    ensures Comms.Inv(r)
  {
    Comms.StopStep(Comms.WriteStep(Comms.WriteStep(Comms.AddrStep(Comms.Initial(), false), OCTAVE_REGISTER), value))
  }

  /** That write leaves an octave request for `value` in the mailbox, the octave register
      selected. */
  lemma OctaveWriteIsTaken(value: u8)
    ensures var (m, c) := Comms.ProcessStep(OctaveWritten(value));
      c.Some? && c.value.register == OCTAVE_REGISTER && c.value.dataSize == 1 &&
      |c.value.data| == Comms.BUFFER_SIZE && c.value.data[0] == value &&
      m.lastRegister == Some(OCTAVE_REGISTER)
  {
  }

  /** Two reads in a read transaction. */
  method ReadTwo(bus: Comms.BusStatus) returns (first: u8, second: u8)
    requires bus.Valid() && bus.dataSize <= Comms.BUFFER_SIZE
    modifies bus
    ensures [first, second] == Comms.ReadMany(Comms.AddrStep(old(bus.Model()), true), 2).1
  {
    bus.Addr(true);
    ghost var start := bus.Model();
    first := bus.ReadData();
    second := bus.ReadData();
    assert Comms.ReadMany(start, 2).1 == [first] + Comms.ReadMany(Comms.ReadStep(start).0, 1).1;
  }

  /** The end-to-end exchange: the controller writes `[0x10, 5]` and stops; the board polls once
      with no key pressed; the controller then reads the octave register and gets 5, then 0xFF. */
  method WriteOctaveThenReadBack() returns (first: u8, second: u8, octave: u8)
    ensures octave == 5 && first == 5 && second == Comms.NO_DATA
  {
    var bus := new Comms.BusStatus();
    var synth := new Synth.SynthEngine();
    bus.Addr(false);
    var _ := bus.WriteData(OCTAVE_REGISTER);
    var _ := bus.WriteData(5);
    bus.Stop();
    assert bus.Model() == OctaveWritten(5);
    OctaveWriteIsTaken(5);
    var keys := KeyboardMatrix.Default();
    assert Synth.HighestPressedBelow(keys.pressed, Synth.OCTAVE_KEYS) == None;
    var register := Poll(bus, synth, 0, keys);
    octave := synth.octave;
    ResponseReadsBack(Comms.ProcessStep(OctaveWritten(5)).0, 5);
    first, second := ReadTwo(bus);
  }
}
