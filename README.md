# nOPe-1 firmware core in Dafny

This project models the firmware core of nOPe-1, a modular synthesizer keyboard, and proves properties of it. The model has two halves.

**Keyboard board** (Rust crates under `subassembly/keyboard_matrix/firmware`):

- `Comms` (`bus_status.dfy`) is the bus-side transaction tracker `BusStatus` of the comms crate.
  - It is a class with the firmware's fields and its 20-byte data array.
  - Its four bus events (address match, byte written, byte read, STOP) and `process`/`provide_data` are each specified by a step function on the tracker's value.
  - Trace lemmas follow the crate's unit tests: register selection, repeated START, the take-once mailbox, 0xFF past the end of the data, and dropping provided data on a write address.
- `Protocol` (`protocol.dfy`) is `process_command`/`build_response`.
  - It also composes one poll of the main loop (process, process_command, synth update, build_response, provide_data).
  - It proves that writing `[0x10, 5]`, stopping, one poll and a read yields `5` then `0xFF`.
- `Synth` (`synth_engine.dfy`) covers the note-state machine, the key/offset/note-index maps and `SynthEngine`.
  - `SynthEngine` is a class over its 97-entry note array, with `set_octave`, `activate/deactivate_note_index` and `update`.
  - `update` is specified by the octave selection, the release of the other octaves, the key pass and the dirty flag.
- `KeyboardMatrix` (`keyboard_state.dfy`) is the 21-key debounce and edge detection of `KeyboardState::build_new`.
- `IlluminatorData`, `KeystrikeAnimation`, `Keystrike`/`KeystrikeProperties` and `Pattern` model the illuminator crate:
  - colour packing, fading and raising;
  - the adjacency table and its walk;
  - the per-key animations;
  - the keystrike illuminator, a class over its 21-key array with `update` and `render`;
  - the idle-time pattern illuminator.

**Encoder board:**

- `LedMatrix` (`led_matrix.dfy`) is the Rust LED-matrix stepper `LedMatrixDefinition`.
- The C prototype firmware under `subassembly/encoder/prototype/TestFirmware/firmware/src` is four modules:
  - `Encoder` (`encoder.dfy`, encoder.c), the rotary encoder with its interrupt lockout.
  - `LedArray` (`led_array.dfy`, led_array.c), the charlieplexed 20-LED array.
  - `EncoderComms` (`encoder_comms.dfy`, comms.c), the bus register interface.
  - `Controller` (`controller.dfy`, controller.c), the animation controller and `controller_tick`.
- Each C file's static variables become the fields of a class.
- Hardware register reads are method parameters, and register writes are return values.
- The controller's `led_array_set_led` calls are returned in order as a list. `Controller.Frame` gives the brightness those calls leave on the ring, and `Controller.Directions` gives the LED array's direction bytes.

`Prelude` (`prelude.dfy`) holds the fixed-width integer types and the explicit wrap-around conversions the model uses wherever the source's integer width matters.

Stateful code keeps its state in a class. Each method states its whole new state as a pure function of the old one (`Model() == Step(old(Model()), …)`), and the lemmas about those functions state what the source promises.

`build_response` answers only register `0x10`, with one byte, the octave; the bus data array is 20 bytes.

## Model

| member | source | states |
|---|---|---|
| Comms.Finalize | subassembly/keyboard_matrix/firmware/comms/src/lib.rs:83-94 | `build_command` keeps the 20-byte array and the cursor within the valid bytes (`Inv`); the command it builds is stated by `RepeatedStartFinalises`, `NoRegisterNoCommand` and `WriteTransactionYieldsOneCommand` |
| Comms.AddrStep | subassembly/keyboard_matrix/firmware/comms/src/lib.rs:33-47 | `addr` preserves `Inv`; its effect is stated by `RepeatedStartFinalises` and `WriteAddressForgetsResponse` |
| Comms.WriteStep | subassembly/keyboard_matrix/firmware/comms/src/lib.rs:53-64 | `write_data` preserves `Inv` when the cursor is inside the array (the source indexes the array unguarded); its effect is stated by `FirstByteSelectsRegister` and `WriteAllStores` |
| Comms.ReadStep | subassembly/keyboard_matrix/firmware/comms/src/lib.rs:66-76 | `read_data` preserves `Inv`, so `data_index <= data_size` after every read; what it returns is stated by `ReadManyServes` |
| Comms.StopStep | subassembly/keyboard_matrix/firmware/comms/src/lib.rs:78-81 | `stop` marks the bus stopped and, when a register was addressed, leaves in the mailbox the command built from that register, the data, the cursor and the direction (a read transaction included); with no register the mailbox is untouched; the transaction's fields stay as they were and `Inv` holds |
| Comms.Initial | subassembly/keyboard_matrix/firmware/comms/src/lib.rs:21-31 | `BusStatus::new` builds a stopped bus with no register, no command, an empty 20-byte buffer, and a first read that serves 0xFF |
| Comms.ProcessStep | subassembly/keyboard_matrix/firmware/comms/src/lib.rs:96-101 | `process` preserves `Inv`; take-once behaviour in `ProcessAtMostOnce` |
| Comms.ProvideStep | subassembly/keyboard_matrix/firmware/comms/src/lib.rs:103-109 | `provide_data` preserves `Inv`; its effect is stated by `ProvidedResponseIsServed` and `ProvideForOtherRegisterIgnored` |
| Comms.BusStatus.constructor | subassembly/keyboard_matrix/firmware/comms/src/lib.rs:21-31 | a new tracker is stopped, has no register, no pending command and `data_index = data_size = 0` |
| Comms.BusStatus.BuildCommand | subassembly/keyboard_matrix/firmware/comms/src/lib.rs:83-94 | the object's new value is `Finalize` of its old value |
| Comms.BusStatus.Addr | subassembly/keyboard_matrix/firmware/comms/src/lib.rs:33-47 | the object's new value is `AddrStep` of its old value |
| Comms.BusStatus.IsReading | subassembly/keyboard_matrix/firmware/comms/src/lib.rs:49-51 | returns the direction of the current transaction |
| Comms.BusStatus.WriteData | subassembly/keyboard_matrix/firmware/comms/src/lib.rs:53-64 | always returns true; the new value is `WriteStep` of the old one |
| Comms.BusStatus.ReadData | subassembly/keyboard_matrix/firmware/comms/src/lib.rs:66-76 | the new value and the byte returned are `ReadStep` of the old value |
| Comms.BusStatus.Stop | subassembly/keyboard_matrix/firmware/comms/src/lib.rs:78-81 | the new value is `StopStep` of the old one |
| Comms.BusStatus.Process | subassembly/keyboard_matrix/firmware/comms/src/lib.rs:96-101 | the new value and the command returned are `ProcessStep` of the old value |
| Comms.BusStatus.ProvideData | subassembly/keyboard_matrix/firmware/comms/src/lib.rs:103-109 | the new value is `ProvideStep` of the old one |
| Comms.WriteAll | subassembly/keyboard_matrix/firmware/comms/src/lib.rs:53-64 | a run of payload bytes written after the register byte keeps `Inv` |
| Comms.ReadMany | subassembly/keyboard_matrix/firmware/comms/src/lib.rs:66-76 | `k` reads in a row return `k` bytes and never change the number of valid bytes |
| Comms.Sentinels | subassembly/keyboard_matrix/firmware/comms/src/lib.rs:73-75 | `n` bytes, all 0xFF |
| Comms.WriteAllStores | subassembly/keyboard_matrix/firmware/comms/src/lib.rs:57-63 | each payload byte lands at `data[data_index]` in order, both counters grow by one per byte, earlier bytes are kept, and register, direction, mailbox and stop flag do not change |
| Comms.WriteTransactionYieldsOneCommand | subassembly/keyboard_matrix/firmware/comms/src/lib.rs:78-101 | address, register byte, payload and STOP leave exactly one command with that register, that payload, its size and the write direction; no new command appears before the STOP, and a second `process` returns nothing |
| Comms.FirstByteSelectsRegister | subassembly/keyboard_matrix/firmware/comms/src/lib.rs:43-56 | after a write-direction address the first byte becomes `last_register`; `data_size` and `data_index` stay 0 |
| Comms.RepeatedStartFinalises | subassembly/keyboard_matrix/firmware/comms/src/lib.rs:33-37 | an address while not stopped closes the previous transaction with its old direction, whatever the new one (also lines 83-94) |
| Comms.NoRegisterNoCommand | subassembly/keyboard_matrix/firmware/comms/src/lib.rs:84 | with no register selected neither STOP nor a repeated START builds a command |
| Comms.DataEventsKeepMailbox | subassembly/keyboard_matrix/firmware/comms/src/lib.rs:53-109 | writing, reading and providing data never touch the mailbox: only finalisation fills it |
| Comms.ProcessAtMostOnce | subassembly/keyboard_matrix/firmware/comms/src/lib.rs:96-101 | `process` returns the pending command, and a second call right after returns None |
| Comms.Served | subassembly/keyboard_matrix/firmware/comms/src/lib.rs:66-76 | the reference answer of `k` reads: the valid bytes from the cursor on, then 0xFF; exactly `k` bytes |
| Comms.ReadManyServes | subassembly/keyboard_matrix/firmware/comms/src/lib.rs:66-76 | reading `k` bytes returns exactly `Served`: `data[data_index]` onwards while data remains, then only 0xFF |
| Comms.ReadManyCursor | subassembly/keyboard_matrix/firmware/comms/src/lib.rs:66-76 | `k` reads advance the cursor by `k`, stopping at the number of valid bytes, and change nothing else |
| Comms.ReadTransactionYieldsReadCommand | subassembly/keyboard_matrix/firmware/comms/src/lib.rs:33-94 | a read transaction of `k` bytes on an addressed register ends, at the STOP, with a read command for that register whose size is the number of bytes actually served |
| Comms.ServedStep | subassembly/keyboard_matrix/firmware/comms/src/lib.rs:68-75 | one read returns the head of the served window and moves the window on by one |
| Comms.ProvidedResponseIsServed | subassembly/keyboard_matrix/firmware/comms/src/lib.rs:103-109 | a response provided for the selected register and then read in a read transaction comes back as its first `size` bytes, then 0xFF (also lines 33-47, 66-76) |
| Comms.ProvideForOtherRegisterIgnored | subassembly/keyboard_matrix/firmware/comms/src/lib.rs:104 | a response for any register other than the selected one changes nothing |
| Comms.WriteAddressForgetsResponse | subassembly/keyboard_matrix/firmware/comms/src/lib.rs:43-46 | a write-direction address clears the register and the data size, so the next read gets 0xFF; a read-direction address keeps both |
| Comms.TraceWriteRegisterThenData | subassembly/keyboard_matrix/firmware/comms/src/lib.rs:122-160 | the unit tests' trace: 0x12 becomes the register, 0xAA lands in `data[0]`, and no command exists without a STOP |
| Comms.TraceRestartGivesWriteCommand | subassembly/keyboard_matrix/firmware/comms/src/lib.rs:179-201 | the unit test's trace: a repeated START yields the write command for 0x12 with no payload, once |
| Comms.TraceUnansweredRegisterReadsSentinel | subassembly/keyboard_matrix/firmware/comms/src/lib.rs:203-287 | the unit tests' trace: one command, the register stays selected, the read direction is reported, and a read of an unanswered register gets 0xFF |
| Comms.TraceProvidedDataReadBack | subassembly/keyboard_matrix/firmware/comms/src/lib.rs:289-348 | the unit test's trace: the five provided bytes are read back in order, then 0xFF |
| Comms.TraceWrongRegisterDataDropped | subassembly/keyboard_matrix/firmware/comms/src/lib.rs:350-389 | the unit test's trace: data provided for another register is not served |
| Comms.TraceSecondWriteDropsResponse | subassembly/keyboard_matrix/firmware/comms/src/lib.rs:391-441 | the unit test's trace: a second write transaction drops the old response |
| Protocol.RequestedOctave | subassembly/keyboard_matrix/firmware/firmware/src/protocol.rs:14-19 | a command requests an octave exactly when it targets 0x10 with a one-byte payload in 1..=8, and the octave requested is that byte |
| Protocol.ProcessCommand | subassembly/keyboard_matrix/firmware/firmware/src/protocol.rs:12-23 | a well-formed octave write sets the octave to `data[0]` and marks the engine dirty, leaving every note alone; any other register, payload size or value leaves octave and dirty flag unchanged |
| Protocol.BuildResponse | subassembly/keyboard_matrix/firmware/firmware/src/protocol.rs:25-42 | there is an answer exactly for register 0x10: 20 bytes, length 1, byte 0 the octave and the other 19 bytes zero |
| Protocol.ResponseReadsBack | subassembly/keyboard_matrix/firmware/firmware/src/protocol.rs:30-37 | the octave answer, once provided for the selected register, reads back as the octave and then 0xFF |
| Protocol.NextRegister | subassembly/keyboard_matrix/firmware/firmware/src/main.rs:118-126 | the loop's register becomes that of the command just taken, and is kept when there is none |
| Protocol.PolledBus | subassembly/keyboard_matrix/firmware/firmware/src/main.rs:137-143 | offering the answer keeps `Inv`, the mailbox and the selected register |
| Protocol.Poll | subassembly/keyboard_matrix/firmware/firmware/src/main.rs:113-144 | one pass of the main loop takes the pending command, applies an octave request, runs the note engine on the scanned keys (octave and notes as `Synth.OctaveAfter`/`Synth.UpdatedNotes` state), and leaves the bus as the answer for the loop's register would |
| Protocol.OctaveWritten | subassembly/keyboard_matrix/firmware/comms/src/lib.rs:33-81 | the bus state after a central writes the octave register and a value and stops keeps the bus invariant |
| Protocol.OctaveWriteIsTaken | subassembly/keyboard_matrix/firmware/comms/src/lib.rs:33-101 | writing `[0x10, value]` to an idle board and stopping leaves an octave request for `value` in the mailbox with 0x10 selected |
| Protocol.ReadTwo | subassembly/keyboard_matrix/firmware/comms/src/lib.rs:33-76 | a read-direction address followed by two reads returns what `ReadMany` says |
| Protocol.WriteOctaveThenReadBack | subassembly/keyboard_matrix/firmware/firmware/src/main.rs:113-144 | end to end, on the objects: the controller writes `[0x10, 5]` and stops, the board polls once with no key pressed, and reading the register returns 5, then 0xFF |
| Synth.NoteState.ToInt | subassembly/keyboard_matrix/firmware/synth_engine/src/lib.rs:20-27 | the wire encoding of a note state lies in 0..3 (injectivity in `ToIntInjective`) |
| Synth.NoteState.Activate | subassembly/keyboard_matrix/firmware/synth_engine/src/lib.rs:37-44 | a held step always leaves the note active, and reaches Sustain exactly from Pressed or Sustain |
| Synth.NoteState.Deactivate | subassembly/keyboard_matrix/firmware/synth_engine/src/lib.rs:47-54 | a released step never leaves Pressed or Sustain, and reaches Off exactly from Off or Release |
| Synth.ToIntInjective | subassembly/keyboard_matrix/firmware/synth_engine/src/lib.rs:20-34 | `to_int` tells the four states apart, and `is_active` holds exactly for the states other than Off |
| Synth.NoteLifeCycle | subassembly/keyboard_matrix/firmware/synth_engine/src/lib.rs:37-54 | from any state, two held steps reach Sustain and two released steps reach Off (also lines 358-401) |
| Synth.IndexToNoteOffset | subassembly/keyboard_matrix/firmware/synth_engine/src/lib.rs:73-90 | every key maps to a semitone offset in 0..=12 |
| Synth.NoteOffsetToIndex | subassembly/keyboard_matrix/firmware/synth_engine/src/lib.rs:92-109 | every offset maps to a note key 8..=20, or to the fallback 0 |
| Synth.KeyOffsetInverse | subassembly/keyboard_matrix/firmware/synth_engine/src/lib.rs:73-109 | the two maps are mutually inverse bijections between keys 8..=20 and offsets 0..=12 |
| Synth.OctaveNoteOffsetToNoteIndex | subassembly/keyboard_matrix/firmware/synth_engine/src/lib.rs:111-115 | for an offset below 12 the note index splits back into octave and offset (`/ 12`, `% 12`); octaves 1..=8 with offsets 0..=12 stay below 97 |
| Synth.NoteIndexOffsetRoundTrip | subassembly/keyboard_matrix/firmware/synth_engine/src/lib.rs:111-125 | `note_index_to_note_offset` inverts `octave_note_offset_to_note_index` for a fixed octave, in both directions |
| Synth.NoteIndexToNoteOffset | subassembly/keyboard_matrix/firmware/synth_engine/src/lib.rs:121-125 | the offset is the one from which `octave_note_offset_to_note_index` gives the note back, below 12 for a note of the octave |
| Synth.NoteIndexExamples | subassembly/keyboard_matrix/firmware/synth_engine/src/lib.rs:227-268 | the unit tests' values: C4 is note 36 (MIDI 60 after the offset of 24), C1 is note 0, C9 is note 96, and back to offsets 0 and 12 |
| Synth.IndexToNoteIndex | subassembly/keyboard_matrix/firmware/synth_engine/src/lib.rs:127-132 | the note of a key lies in the thirteen notes from the octave's C, below 97 |
| Synth.KeysPlayDistinctNotes | subassembly/keyboard_matrix/firmware/synth_engine/src/lib.rs:73-132 | the thirteen note keys play thirteen different notes |
| Synth.NoteIndexToMidiCountsOctaveTwice | subassembly/keyboard_matrix/firmware/synth_engine/src/lib.rs:135-140 | as written, C4 (note 36 in octave 4) converts to MIDI 120, while the standard number is 60 |
| Synth.NoteIndexToMidi | subassembly/keyboard_matrix/firmware/synth_engine/src/lib.rs:135-140 | as written, the MIDI number is the table's number for the note plus a second octave offset of 12 × (octave + 1) |
| Synth.MidiOfNoteIndex | subassembly/keyboard_matrix/firmware/synth_engine/src/lib.rs:135-140 | the corrected conversion never goes below the MIDI number of C1 (also line 7) |
| Synth.MidiOfNoteIndexIsStandard | subassembly/keyboard_matrix/firmware/synth_engine/src/lib.rs:135-140 | with the corrected conversion, the note `offset` semitones above the C of octave `o` is MIDI 12·(o+1)+offset in every octave (also line 7) |
| Synth.HighestPressedBelow | subassembly/keyboard_matrix/firmware/synth_engine/src/lib.rs:191-197 | the highest newly pressed key below `i`, or none: both directions stated |
| Synth.OctaveSelection | subassembly/keyboard_matrix/firmware/synth_engine/src/lib.rs:191-197 | the octave loop keeps an octave in 1..=8 within 1..=8, and an octave that changed was written |
| Synth.OctaveRewrittenToSameValue | subassembly/keyboard_matrix/firmware/synth_engine/src/lib.rs:191-197 | from octave 6 with keys 2 and 5 newly pressed the loop writes the octave and ends back at 6 |
| Synth.Cleared | subassembly/keyboard_matrix/firmware/synth_engine/src/lib.rs:199-208 | the clearing loop keeps 97 notes (per-note effect in `UpdateNoteEffect`) |
| Synth.KeyOfNote | subassembly/keyboard_matrix/firmware/synth_engine/src/lib.rs:127-132 | the key that plays note `n` in the octave, exactly when one does: both directions stated (also lines 211-212) |
| Synth.Keyed | subassembly/keyboard_matrix/firmware/synth_engine/src/lib.rs:210-219 | the key loop keeps 97 notes (per-note effect in `UpdateNoteEffect`) |
| Synth.UpdatedNotes | subassembly/keyboard_matrix/firmware/synth_engine/src/lib.rs:199-219 | the notes after `update` are 97 notes (per-note effect in `UpdateNoteEffect`) |
| Synth.UpdateNoteEffect | subassembly/keyboard_matrix/firmware/synth_engine/src/lib.rs:199-219 | each key's note steps by whether the key is held; the top-C key's note, the next octave's C, is first released below octave 8; every other note of octaves 1..8 takes one released step; C9 is untouched when no key plays it |
| Synth.HeldTopCStaysPressed | subassembly/keyboard_matrix/firmware/synth_engine/src/lib.rs:199-219 | in octave 4 a held top-C key keeps its note at Pressed: released by the clearing loop, re-pressed by the key loop |
| Synth.ClearChangeWitness | subassembly/keyboard_matrix/firmware/synth_engine/src/lib.rs:199-208 | one note of another octave that changes makes the clearing loop report a change |
| Synth.KeyChangeWitness | subassembly/keyboard_matrix/firmware/synth_engine/src/lib.rs:210-219 | one note key whose note changes makes the key loop report a change |
| Synth.NetChangeIsRecorded | subassembly/keyboard_matrix/firmware/synth_engine/src/lib.rs:187-220 | a changed octave or a changed note after `update` implies that `dirty` is set |
| Synth.DirtyWithoutNetChange | subassembly/keyboard_matrix/firmware/synth_engine/src/lib.rs:188-197 | the converse fails: `dirty` records writes, and the octave can be written and restored within one scan while no note moves |
| Synth.ClearedUpToStep | subassembly/keyboard_matrix/firmware/synth_engine/src/lib.rs:202-205 | one turn of the clearing loop extends the cleared prefix by one note |
| Synth.ClearedUpToSkip | subassembly/keyboard_matrix/firmware/synth_engine/src/lib.rs:201 | the current octave's twelve notes are skipped |
| Synth.ClearChangesSkip | subassembly/keyboard_matrix/firmware/synth_engine/src/lib.rs:201 | skipping the current octave adds no change |
| Synth.KeyedUpToStep | subassembly/keyboard_matrix/firmware/synth_engine/src/lib.rs:211-218 | one turn of the key loop steps exactly that key's note |
| Synth.SynthEngine.constructor | subassembly/keyboard_matrix/firmware/synth_engine/src/lib.rs:65-71 | a new engine is in octave 4 with every note Off and nothing to report (also lines 176-180) |
| Synth.SynthEngine.ActivateNoteIndex | subassembly/keyboard_matrix/firmware/synth_engine/src/lib.rs:142-154 | the note takes one held step, no other note changes, the result is true exactly when the stored state changed, and `dirty` is set by a change |
| Synth.SynthEngine.DeactivateNoteIndex | subassembly/keyboard_matrix/firmware/synth_engine/src/lib.rs:156-168 | the same for a released step |
| Synth.SynthEngine.SetOctave | subassembly/keyboard_matrix/firmware/synth_engine/src/lib.rs:182-185 | the octave becomes the argument, `dirty` is set, notes are untouched |
| Synth.SynthEngine.Update | subassembly/keyboard_matrix/firmware/synth_engine/src/lib.rs:187-220 | the octave becomes `OctaveAfter` (the highest newly pressed octave key), the notes become `UpdatedNotes`, and `dirty` is true exactly when one of the three loops wrote |
| Synth.SynthEngine.SelectOctave | subassembly/keyboard_matrix/firmware/synth_engine/src/lib.rs:188-197 | `dirty` is cleared, then the octave loop sets the octave to `OctaveAfter` and `dirty` to whether it wrote |
| Synth.SynthEngine.ReleaseOtherOctaves | subassembly/keyboard_matrix/firmware/synth_engine/src/lib.rs:199-208 | every note of every other octave takes one released step (`Cleared`), and `dirty` gains whether any changed |
| Synth.SynthEngine.ReleaseOctave | subassembly/keyboard_matrix/firmware/synth_engine/src/lib.rs:201-207 | one other octave's twelve notes take their released step |
| Synth.SynthEngine.StepNoteKeys | subassembly/keyboard_matrix/firmware/synth_engine/src/lib.rs:210-219 | each note key moves its note one step by whether it is held (`Keyed`), and `dirty` gains whether any changed |
| Synth.SynthEngine.StepNoteKey | subassembly/keyboard_matrix/firmware/synth_engine/src/lib.rs:212-218 | one key's turn of that loop |
| KeyboardMatrix.CountTrue | subassembly/keyboard_matrix/firmware/keyboard_matrix/src/keyboard_state.rs:52-62 | the number of set entries, never more than the entries there are |
| KeyboardMatrix.DebounceKey | subassembly/keyboard_matrix/firmware/keyboard_matrix/src/keyboard_state.rs:37-50 | one key's debounced level and next counter, as `DebouncedKey` (a differing input is taken only at counter 0) and `NextCounter` (reloaded to 100 on an accepted change, then counted down without going below zero) |
| KeyboardMatrix.DebouncedKey | subassembly/keyboard_matrix/firmware/keyboard_matrix/src/keyboard_state.rs:37-46 | a key's level changes exactly when the input differs and its counter is zero, and then to the input |
| KeyboardMatrix.NextCounter | subassembly/keyboard_matrix/firmware/keyboard_matrix/src/keyboard_state.rs:37-50 | an accepted change reloads the counter to 100 and counts it down to 99; otherwise it counts down, stopping at zero |
| KeyboardMatrix.KeyboardState.BuildNew | subassembly/keyboard_matrix/firmware/keyboard_matrix/src/keyboard_state.rs:27-75 | every key is debounced as `DebounceKey` says; `pressed[i]` holds iff the key is now held and was not, `released[i]` iff the reverse; the three counters are the numbers of pressed, released and held keys; `self` is left as it is |
| KeyboardMatrix.ScannedPrefixSnoc | subassembly/keyboard_matrix/firmware/keyboard_matrix/src/keyboard_state.rs:36-62 | one turn of the scan loop extends the finished prefix by one key |
| KeyboardMatrix.Default | subassembly/keyboard_matrix/firmware/keyboard_matrix/src/keyboard_state.rs:15-25 | nothing held, no counter running, no edges, all counts zero |
| KeyboardMatrix.AcceptedChangeArmsCounter | subassembly/keyboard_matrix/firmware/keyboard_matrix/src/keyboard_state.rs:37-50 | an accepted change takes the input and leaves the counter at 99; while a counter runs the old level is kept and the counter drops by one; at counter 0 with no change the counter stays 0 (also lines 12, 85-167) |
| KeyboardMatrix.EdgeCountsBounded | subassembly/keyboard_matrix/firmware/keyboard_matrix/src/keyboard_state.rs:52-62 | no key is both newly pressed and newly released, so the two edge counts add up to at most 21, and the newly pressed keys are among the held ones |
| KeyboardMatrix.CountTrueDisjoint | subassembly/keyboard_matrix/firmware/keyboard_matrix/src/keyboard_state.rs:52-59 | two never-both-set flag arrays count together at most their length |
| KeyboardMatrix.CountTrueMonotone | subassembly/keyboard_matrix/firmware/keyboard_matrix/src/keyboard_state.rs:52-62 | flags implied by other flags count no more |
| KeyboardMatrix.DebounceScenarios | subassembly/keyboard_matrix/firmware/keyboard_matrix/src/keyboard_state.rs:85-196 | the unit tests' scenarios on the value: a press at counter 0 is taken, arms the counter and counts one pressed key; a press while the counter is 5 is rejected and leaves 4 |
| KeyboardMatrix.CountTrueSnoc | subassembly/keyboard_matrix/firmware/keyboard_matrix/src/keyboard_state.rs:52-62 | counting one more key adds one exactly when it is set |
| KeyboardMatrix.CountTrueAllFalse | subassembly/keyboard_matrix/firmware/keyboard_matrix/src/keyboard_state.rs:15-25 | an all-clear array counts zero |
| KeyboardMatrix.CountTrueAppendFront | subassembly/keyboard_matrix/firmware/keyboard_matrix/src/keyboard_state.rs:52-62 | counting does not depend on where a key sits |
| IlluminatorData.Min | subassembly/keyboard_matrix/firmware/illuminator/src/data.rs:27-33 | the result is one of the two arguments and no larger than either |
| IlluminatorData.Max | subassembly/keyboard_matrix/firmware/illuminator/src/data.rs:35-41 | the result is one of the two arguments and no smaller than either |
| IlluminatorData.Serialize | subassembly/keyboard_matrix/firmware/illuminator/src/data.rs:82-90 | a packed colour uses only the low 24 bits of the word |
| IlluminatorData.SerializeRoundTrip | subassembly/keyboard_matrix/firmware/illuminator/src/data.rs:82-98 | unpacking a packed colour gives the colour back, for every colour (the round-trip test, generalised) (also lines 160-189) |
| IlluminatorData.Deserialize | subassembly/keyboard_matrix/firmware/illuminator/src/data.rs:92-98 | unpacking keeps exactly the low 24 bits: packing the result gives the word modulo 2^24 |
| IlluminatorData.SerializeInjective | subassembly/keyboard_matrix/firmware/illuminator/src/data.rs:82-90 | two different colours never pack to the same word |
| IlluminatorData.PackingBits | subassembly/keyboard_matrix/firmware/illuminator/src/data.rs:85-96 | on 32-bit words, OR-ing the shifted bytes equals their weighted sum, and each mask-and-shift equals the division-and-remainder the model uses |
| IlluminatorData.FadeChannel | subassembly/keyboard_matrix/firmware/illuminator/src/data.rs:101-106 | one channel of a fade lies between the two end values, equals the start at 0 percent and the end at 100 percent |
| IlluminatorData.FadeChannelBounds | subassembly/keyboard_matrix/firmware/illuminator/src/data.rs:104-106 | the u16 intermediate never exceeds 25500, so neither it nor the cast to u8 truncates, and it lies between 100 times the smaller and 100 times the larger end value |
| IlluminatorData.Fade | subassembly/keyboard_matrix/firmware/illuminator/src/data.rs:100-109 | every channel of the faded colour lies between the two colours' channels; 0 percent gives the start colour and any percent of 100 or more gives the end colour (also lines 191-199) |
| IlluminatorData.Dimmed | subassembly/keyboard_matrix/firmware/illuminator/src/data.rs:112-121 | keys of the first row (0 to 7) ask for each channel halved, rounded down (twice the result is the channel or one less); the other keys ask for the colour unchanged |
| IlluminatorData.Raised | subassembly/keyboard_matrix/firmware/illuminator/src/data.rs:123-136 | each channel becomes the larger of the pixel's and the dimmed request's: at least both, and equal to one of them, so raising never darkens a channel |
| IlluminatorData.SetLedColor | subassembly/keyboard_matrix/firmware/illuminator/src/data.rs:111-139 | the pixel becomes the channel-wise maximum of itself and the (dimmed) request, and the returned flag is true exactly when the pixel changed |
| IlluminatorData.RaisedIdempotent | subassembly/keyboard_matrix/firmware/illuminator/src/data.rs:111-139 | making the same request twice changes nothing the second time |
| IlluminatorData.AdjacencyWellFormed | subassembly/keyboard_matrix/firmware/illuminator/src/data.rs:3-25 | the table has one row of six slots for each of the 21 keys, each slot a key or the padding 255, and no key lists itself |
| IlluminatorData.AdjacencySymmetric | subassembly/keyboard_matrix/firmware/illuminator/src/data.rs:3-25 | whenever key k lists key n as a neighbour, key n lists key k |
| IlluminatorData.Walk | subassembly/keyboard_matrix/firmware/illuminator/src/data.rs:142-155 | every callback of the recursive walk, over any well-shaped table, names a key at a level no deeper than the starting level; which pairs it reports is stated by `WalkMembers` |
| IlluminatorData.AdjacencyCalls | subassembly/keyboard_matrix/firmware/illuminator/src/data.rs:142-155 | every callback of `adjacency_recursion` names one of the 21 keys, at a level no deeper than the starting level; the order of the calls of a strike is stated by `StrikeWalk` |
| IlluminatorData.WalkMembers | subassembly/keyboard_matrix/firmware/illuminator/src/data.rs:145-154 | a call is reported exactly when some non-padding slot other than the key the walk came from names it at the current level, or the walk from that neighbour one level down reports it |
| IlluminatorData.StrikeWalk | subassembly/keyboard_matrix/firmware/illuminator/src/data.rs:142-155 | a walk of depth 1 from a struck key reports exactly its neighbours at level 1 and its neighbours' other neighbours at level 0, nothing else |
| IlluminatorData.StrikeWalkSound | subassembly/keyboard_matrix/firmware/illuminator/src/data.rs:142-155 | the depth-1 walk reports only neighbours at level 1 and second-hop keys at level 0 |
| IlluminatorData.StrikeWalkReaches | subassembly/keyboard_matrix/firmware/illuminator/src/data.rs:145-149 | every neighbour of the struck key is reported at level 1 |
| IlluminatorData.StrikeWalkSecondHop | subassembly/keyboard_matrix/firmware/illuminator/src/data.rs:150-152 | every neighbour of a neighbour, other than the struck key, is reported at level 0 |
| IlluminatorData.StrikeCalls | subassembly/keyboard_matrix/firmware/illuminator/src/data.rs:142-155 | `StrikeWalk` for the keyboard's own table: the walk made when a key is struck reports exactly its neighbours at level 1 and their other neighbours at level 0 (also lines 3-25) |
| KeystrikeAnimation.Swing | subassembly/keyboard_matrix/firmware/illuminator/src/keystrike_animation.rs:61-72 | past the strike phase the colour stays between the two sustain colours, is the first at every even second and the second at every odd second |
| KeystrikeAnimation.SwingPhase | subassembly/keyboard_matrix/firmware/illuminator/src/keystrike_animation.rs:64-66 | the percentage stays below 100, and whole even (odd) seconds past the strike phase fall at the start of a first-to-second (second-to-first) fade |
| KeystrikeAnimation.SwingShift | subassembly/keyboard_matrix/firmware/illuminator/src/keystrike_animation.rs:64-66 | two more seconds leave the percentage and the direction of the swing unchanged |
| KeystrikeAnimation.KeypressCompute | subassembly/keyboard_matrix/firmware/illuminator/src/keystrike_animation.rs:48-74 | at 0 ms the strike colour; during the first second a colour between the strike and the first sustain colour; afterwards a colour between the two sustain colours |
| KeystrikeAnimation.KeypressPeriodic | subassembly/keyboard_matrix/firmware/illuminator/src/keystrike_animation.rs:61-72 | past the strike phase the animation repeats every two seconds |
| KeystrikeAnimation.KeypressJoins | subassembly/keyboard_matrix/firmware/illuminator/src/keystrike_animation.rs:55-72 | the strike phase ends where the swing begins: at 1000 ms the colour is exactly the first sustain colour, and at 990 ms it is 99 percent of the way there |
| KeystrikeAnimation.NormalKeyPress | subassembly/keyboard_matrix/firmware/illuminator/src/keystrike_animation.rs:76-88 | a struck note key starts green and, after a second, swings between the two sustain colours (also lines 4-6) |
| KeystrikeAnimation.OctaveKeyPress | subassembly/keyboard_matrix/firmware/illuminator/src/keystrike_animation.rs:90-102 | a struck octave key starts at the octave strike colour and, after a second, swings between the two selected-octave colours (also lines 8-17) |
| KeystrikeAnimation.SelectedOctave | subassembly/keyboard_matrix/firmware/illuminator/src/keystrike_animation.rs:104-126 | the selected octave key shows the first selected colour for the first second (1000 ms included) and is always between the two selected colours |
| KeystrikeAnimation.SelectedOctaveTimeline | subassembly/keyboard_matrix/firmware/illuminator/src/keystrike_animation.rs:193-233 | the values the tests expect at 0, 1000, 1500 and 2000 ms: first colour, first colour, halfway between, second colour |
| KeystrikeAnimation.KeyFade | subassembly/keyboard_matrix/firmware/illuminator/src/keystrike_animation.rs:136-143 | a released key's colour lies between its stored colour and black; it is unchanged below 10 ms and black from 1000 ms until the 8-bit truncation of the percentage wraps at 2560 ms |
| KeystrikeAnimation.KeyFadeDarkens | subassembly/keyboard_matrix/firmware/illuminator/src/keystrike_animation.rs:128-143 | until the fade is complete no channel brightens and the key is black at exactly 1000 ms; at 2560 ms the truncated percentage is back to 0 and the stored colour shows again |
| KeystrikeAnimation.KeyFadeTimeline | subassembly/keyboard_matrix/firmware/illuminator/src/keystrike_animation.rs:163-191 | full red is unchanged at 0 ms and black at 1000 ms, as the tests expect |
| KeystrikeAnimation.KeyFadeBeforeComplete | subassembly/keyboard_matrix/firmware/illuminator/src/keystrike_animation.rs:131-141 | while the fade is not complete the percentage is exactly the elapsed milliseconds over 10 |
| KeystrikeAnimation.FadeRedHalfway | subassembly/keyboard_matrix/firmware/illuminator/src/keystrike_animation.rs:173-181 | half-way through, full red has faded to red 127, as the test expects |
| KeystrikeAnimation.PackedRed | subassembly/keyboard_matrix/firmware/illuminator/src/keystrike_animation.rs:165 | full red packs to the word 0xFF |
| KeystrikeAnimation.KeyRadiant | subassembly/keyboard_matrix/firmware/illuminator/src/keystrike_animation.rs:145-156 | a radiant key at hop level 0, 1 or 2 shows that level's neighbour colour, and is black at any other level (also lines 22-34) |
| Keystrike.KeyTypeForIndex | subassembly/keyboard_matrix/firmware/illuminator/src/keystrike_illuminator.rs:59-64 | a key selects an octave exactly when it is one of the first eight (0 to 7) |
| Keystrike.ComputePixel | subassembly/keyboard_matrix/firmware/illuminator/src/keystrike_illuminator.rs:71-96 | a key has a colour exactly when it is not `Off`; a fading key shows the fade animation and a glowing key the radiant animation of its own parameters |
| Keystrike.PixelOrBlack | subassembly/keyboard_matrix/firmware/illuminator/src/keystrike_illuminator.rs:136-139 | the colour a key hands on when it starts fading is black for a key that was `Off` |
| Keystrike.OwnStep | subassembly/keyboard_matrix/firmware/illuminator/src/keystrike_illuminator.rs:112-218 | outside the selected state a key ends pressed exactly when it is held; a fading key never has more than the fade length on its clock; a glowing key only stays glowing, with its level; a key is selected afterwards exactly when it was and is the selected octave's; a key ends off only when released from off or fade |
| Keystrike.Touch | subassembly/keyboard_matrix/firmware/illuminator/src/keystrike_illuminator.rs:122-130 | the callback keeps the number of keys (its effect on each key is `KeystrikeProperties.RadiateAllEffect`) |
| Keystrike.RadiateAll | subassembly/keyboard_matrix/firmware/illuminator/src/keystrike_illuminator.rs:118-131 | applying the callback to every call of the walk keeps the number of keys |
| Keystrike.StruckFrom | subassembly/keyboard_matrix/firmware/illuminator/src/keystrike_illuminator.rs:118-131 | a strike keeps the number of keys (its effect on each key is `KeystrikeProperties.StruckFromEffect`) |
| Keystrike.KeyStep | subassembly/keyboard_matrix/firmware/illuminator/src/keystrike_illuminator.rs:110-218 | one loop iteration keeps the number of keys (its effect is `KeystrikeProperties.KeyStepEffect`) |
| Keystrike.StepsUpTo | subassembly/keyboard_matrix/firmware/illuminator/src/keystrike_illuminator.rs:109-220 | the first n iterations keep the number of keys |
| Keystrike.MarkSelected | subassembly/keyboard_matrix/firmware/illuminator/src/keystrike_illuminator.rs:107 | marking the selected octave keeps the number of keys |
| Keystrike.Updated | subassembly/keyboard_matrix/firmware/illuminator/src/keystrike_illuminator.rs:100-221 | a tick keeps the number of keys (its effect is the `KeystrikeProperties.Updated*` lemmas) |
| Keystrike.KeystrikeIlluminator.constructor | subassembly/keyboard_matrix/firmware/illuminator/src/keystrike_illuminator.rs:36-55 | every key starts `Off` with zero parameter and clock |
| Keystrike.KeystrikeIlluminator.StrikeNeighbors | subassembly/keyboard_matrix/firmware/illuminator/src/keystrike_illuminator.rs:118-131 | the key array becomes `StruckFrom` of the old one: the walk's calls applied in order (also subassembly/keyboard_matrix/firmware/illuminator/src/data.rs:142-155) |
| Keystrike.KeystrikeIlluminator.Radiate | subassembly/keyboard_matrix/firmware/illuminator/src/keystrike_illuminator.rs:122-130 | the key array becomes the old one with each call's `Off` key lit, in call order |
| Keystrike.KeystrikeIlluminator.Update | subassembly/keyboard_matrix/firmware/illuminator/src/keystrike_illuminator.rs:100-221 | the key array becomes `Updated` of the old one for the held keys and the selected octave |
| Keystrike.KeystrikeIlluminator.UpdateKey | subassembly/keyboard_matrix/firmware/illuminator/src/keystrike_illuminator.rs:110-218 | one iteration of the update loop: the key array becomes `KeyStep` of the old one |
| Keystrike.KeystrikeIlluminator.Render | subassembly/keyboard_matrix/firmware/illuminator/src/keystrike_illuminator.rs:223-243 | every lit key's LED takes the key's computed colour and every `Off` key's LED keeps its old value |
| KeystrikeProperties.FirstLevel | subassembly/keyboard_matrix/firmware/illuminator/src/keystrike_illuminator.rs:118-131 | the level of the first walk call naming a key, and none exactly when no call names it |
| KeystrikeProperties.RadiateAllEffect | subassembly/keyboard_matrix/firmware/illuminator/src/keystrike_illuminator.rs:122-130 | after the callbacks an `Off` key named by some call glows with the level of the first such call and a zero clock; every other key is unchanged |
| KeystrikeProperties.StrikeLevels | subassembly/keyboard_matrix/firmware/illuminator/src/keystrike_illuminator.rs:118-131 | a strike's walk names a key exactly when it is within two hops; the first naming call reports level 1 only for a neighbour and level 0 only for a key two hops away (also subassembly/keyboard_matrix/firmware/illuminator/src/data.rs:142-155) |
| KeystrikeProperties.StruckFromEffect | subassembly/keyboard_matrix/firmware/illuminator/src/keystrike_illuminator.rs:118-131 | striking a key lights exactly the `Off` keys within two hops of it, with a zero clock and a level of 1 only for neighbours and 0 only for keys two hops away; every other key, the struck one included, is unchanged |
| KeystrikeProperties.NotWithinTwoHopsOfItself | subassembly/keyboard_matrix/firmware/illuminator/src/data.rs:3-25 | the table never leads a key back to itself within two hops, so a strike cannot relight the struck key |
| KeystrikeProperties.RadiatedOrSameTransitive | subassembly/keyboard_matrix/firmware/illuminator/src/keystrike_illuminator.rs:122-130 | "unchanged or newly lit" composes over successive loop iterations |
| KeystrikeProperties.KeyStepEffect | subassembly/keyboard_matrix/firmware/illuminator/src/keystrike_illuminator.rs:110-218 | one loop iteration gives its own key the state machine's step and at most lights any other key |
| KeystrikeProperties.StepsBefore | subassembly/keyboard_matrix/firmware/illuminator/src/keystrike_illuminator.rs:109-220 | keys the loop has not reached have at most been lit |
| KeystrikeProperties.StepsAfter | subassembly/keyboard_matrix/firmware/illuminator/src/keystrike_illuminator.rs:109-220 | keys the loop has passed have at most been lit since |
| KeystrikeProperties.KeyOutcome | subassembly/keyboard_matrix/firmware/illuminator/src/keystrike_illuminator.rs:109-220 | over a tick each key may be lit before the loop reaches it, then takes its own step, then may be lit by later keys |
| KeystrikeProperties.UpdatedPressedIffHeld | subassembly/keyboard_matrix/firmware/illuminator/src/keystrike_illuminator.rs:100-221 | after a tick a key other than the selected octave's (and not left selected) is pressed exactly when it is held (also lines 304-351) |
| KeystrikeProperties.UpdatedStrikeStartsCounter | subassembly/keyboard_matrix/firmware/illuminator/src/keystrike_illuminator.rs:113-117 | a held key that was off is pressed with a zero clock after the tick, even if an earlier key's strike lit it in the same tick |
| KeystrikeProperties.UpdatedReleaseFades | subassembly/keyboard_matrix/firmware/illuminator/src/keystrike_illuminator.rs:134-143 | a released key starts fading from the colour it showed, with a zero clock (also lines 404-462) |
| KeystrikeProperties.UpdatedOctaveKey | subassembly/keyboard_matrix/firmware/illuminator/src/keystrike_illuminator.rs:107 | the selected octave's key ends the tick selected, its clock advanced by the tick (wrapping at 32 bits) (also lines 206-217, 283-301) |
| KeystrikeProperties.UpdatedDeselectedFades | subassembly/keyboard_matrix/firmware/illuminator/src/keystrike_illuminator.rs:206-214 | a key selected for an earlier octave starts fading with a zero clock, held or not |
| KeystrikeProperties.NewConsistent | subassembly/keyboard_matrix/firmware/illuminator/src/keystrike_illuminator.rs:36-55 | freshly built keys are consistent: no fading key past the fade's length, no glowing key above level 1 |
| KeystrikeProperties.KeyStepConsistent | subassembly/keyboard_matrix/firmware/illuminator/src/keystrike_illuminator.rs:110-218 | one loop iteration keeps the keys consistent |
| KeystrikeProperties.StepsConsistent | subassembly/keyboard_matrix/firmware/illuminator/src/keystrike_illuminator.rs:109-220 | any number of loop iterations keeps the keys consistent |
| KeystrikeProperties.UpdatedConsistent | subassembly/keyboard_matrix/firmware/illuminator/src/keystrike_illuminator.rs:100-221 | every tick keeps the keys consistent |
| KeystrikeProperties.ConsistentPixels | subassembly/keyboard_matrix/firmware/illuminator/src/keystrike_illuminator.rs:71-96 | on consistent keys a fading key shows exactly clock/10 percent of its fade (the 8-bit truncation never applies) and a glowing key its level's neighbour colour |
| Pattern.SaturatingAdd | subassembly/keyboard_matrix/firmware/illuminator/src/pattern_illuminator.rs:35 | the sum when it fits in 32 bits, the largest u32 otherwise; never less than either operand |
| Pattern.IdleAfter | subassembly/keyboard_matrix/firmware/illuminator/src/pattern_illuminator.rs:34-38 | a held key resets the idle time to zero; otherwise it does not decrease and is at least the tick |
| Pattern.PatternPersists | subassembly/keyboard_matrix/firmware/illuminator/src/pattern_illuminator.rs:35-42 | once past the ten-second threshold the idle time stays past it while no key is held, and sticks at the largest u32 rather than wrapping |
| Pattern.Hue | subassembly/keyboard_matrix/firmware/illuminator/src/pattern_illuminator.rs:43-45 | every hue is below 255 |
| Pattern.HueNeighbors | subassembly/keyboard_matrix/firmware/illuminator/src/pattern_illuminator.rs:45 | adjacent LEDs are 13 hue steps apart, modulo 255 |
| Pattern.HueAdvances | subassembly/keyboard_matrix/firmware/illuminator/src/pattern_illuminator.rs:43-45 | within one five-second pass every LED advances one hue step per 20 ms |
| Pattern.NextHue | subassembly/keyboard_matrix/firmware/illuminator/src/pattern_illuminator.rs:45 | one more step after reduction modulo 255 equals reducing one more step |
| Pattern.PatternIlluminator.constructor | subassembly/keyboard_matrix/firmware/illuminator/src/pattern_illuminator.rs:21-25 | the idle time starts at zero |
| Pattern.PatternIlluminator.Update | subassembly/keyboard_matrix/firmware/illuminator/src/pattern_illuminator.rs:28-39 | the idle time becomes `IdleAfter` of the old one |
| Pattern.PatternIlluminator.Render | subassembly/keyboard_matrix/firmware/illuminator/src/pattern_illuminator.rs:41-55 | at or below ten seconds of idleness the frame is untouched; past it every LED shows its pattern hue at full saturation and value |
| LedMatrix.LedPinDrivesAsWrittenShortsLed15 | subassembly/encoder/firmware/led_matrix/src/lib.rs:88-109 | the table as written drives LED 15 from pin D to pin D, and the pair (D, E) belongs to no LED |
| LedMatrix.LedPinDrivesDistinct | subassembly/encoder/firmware/led_matrix/src/lib.rs:88-109 | in the corrected table every LED sits between two different pins, no two LEDs share a pin pair, and every ordered pair of distinct pins is some LED's |
| LedMatrix.Pair | subassembly/encoder/firmware/led_matrix/src/lib.rs:88-109 | LED i of the corrected table has pin i/4 as anode and the (i mod 4)-th of the other four pins as cathode |
| LedMatrix.PairDistinct | subassembly/encoder/firmware/led_matrix/src/lib.rs:88-109 | two different LEDs of the corrected table have different pin pairs |
| LedMatrix.PinIndex | subassembly/encoder/firmware/led_matrix/src/lib.rs:55-62 | the position of a pin in the driving order, below five, and the inverse of `PinOf` |
| LedMatrix.NextDrive | subassembly/encoder/firmware/led_matrix/src/lib.rs:148-164 | a step moves the driven pin one place round A..E and moves the cycle on (modulo four) exactly when the pin wraps from E to A |
| LedMatrix.Steps | subassembly/encoder/firmware/led_matrix/src/lib.rs:148-164 | any number of steps keeps the cycle index within the four cycles |
| LedMatrix.NextDriveAdvances | subassembly/encoder/firmware/led_matrix/src/lib.rs:148-164 | one step from the position reached after x steps is the position after x + 1 steps, in closed form |
| LedMatrix.StepsClosedForm | subassembly/encoder/firmware/led_matrix/src/lib.rs:148-164 | after n steps the pin has advanced n places modulo five and the cycle once per completed round of five, modulo four |
| LedMatrix.StepsRounds | subassembly/encoder/firmware/led_matrix/src/lib.rs:148-164 | k whole rounds of five steps come back to the same pin, k cycles on |
| LedMatrix.LedMatrixDefinition.constructor | subassembly/encoder/firmware/led_matrix/src/lib.rs:113-131 | all 20 brightness bytes zero, driving pin A in cycle 0 (also lines 173-185) |
| LedMatrix.LedMatrixDefinition.SetValue | subassembly/encoder/firmware/led_matrix/src/lib.rs:133-140 | an LED number below 20 sets that LED's byte and nothing else; a larger number changes nothing |
| LedMatrix.LedMatrixDefinition.Clear | subassembly/encoder/firmware/led_matrix/src/lib.rs:142-146 | every brightness byte becomes zero |
| LedMatrix.LedMatrixDefinition.Step | subassembly/encoder/firmware/led_matrix/src/lib.rs:148-164 | the driven pin and the cycle become `NextDrive` of the old ones |
| LedMatrix.StepFromNew | subassembly/encoder/firmware/led_matrix/src/lib.rs:187-238 | n steps on a fresh matrix reach `Steps(PinA, 0, n)`; in particular five steps drive pin A in cycle 1 and twenty drive pin A in cycle 0, as the tests expect |
| LedMatrix.StepsFromNew | subassembly/encoder/firmware/led_matrix/src/lib.rs:196-238 | five steps from A in cycle 0 reach A in cycle 1, twenty come back to A in cycle 0 |
| Encoder.Interrupted | subassembly/encoder/prototype/TestFirmware/firmware/src/encoder/encoder.c:42-60 | while the lockout runs an interrupt changes nothing; otherwise it restarts the lockout at 10000 ticks, a rotation edge sets the increment to -1 when PA10 is high and +1 when it is low, and a switch edge adds one click (wrapping at 8 bits) |
| Encoder.Ticked | subassembly/encoder/prototype/TestFirmware/firmware/src/encoder/encoder.c:62-66 | a tick counts the lockout down by one and stops at zero, leaving clicks and increment alone |
| Encoder.TickedTimes | subassembly/encoder/prototype/TestFirmware/firmware/src/encoder/encoder.c:62-66 | ticks never change the pending clicks or increment |
| Encoder.TickedTimesLockout | subassembly/encoder/prototype/TestFirmware/firmware/src/encoder/encoder.c:62-66 | after n ticks the lockout is n less, and zero once n reaches it |
| Encoder.LockoutWindow | subassembly/encoder/prototype/TestFirmware/firmware/src/encoder/encoder.c:42-66 | after an edge is taken, every interrupt in the next 9999 ticks is ignored, and from the 10000th tick on the next edge is taken again |
| Encoder.TakeIncrement | subassembly/encoder/prototype/TestFirmware/firmware/src/encoder/encoder.c:68-73 | the pending increment is returned widened to 32 bits and none is left |
| Encoder.TakeClicks | subassembly/encoder/prototype/TestFirmware/firmware/src/encoder/encoder.c:75-80 | the pending clicks are returned and none are left |
| Encoder.TakesReportOnce | subassembly/encoder/prototype/TestFirmware/firmware/src/encoder/encoder.c:68-80 | a second take reports nothing, and taking one does not disturb the other or the lockout |
| Encoder.EncoderDriver.constructor | subassembly/encoder/prototype/TestFirmware/firmware/src/encoder/encoder.c:10-13 | no clicks, no increment, no lockout |
| Encoder.EncoderDriver.Interrupt | subassembly/encoder/prototype/TestFirmware/firmware/src/encoder/encoder.c:42-60 | the driver's globals become `Interrupted` of the old ones |
| Encoder.EncoderDriver.Tick | subassembly/encoder/prototype/TestFirmware/firmware/src/encoder/encoder.c:62-66 | the globals become `Ticked` of the old ones |
| Encoder.EncoderDriver.GetIncrement | subassembly/encoder/prototype/TestFirmware/firmware/src/encoder/encoder.c:68-73 | the result and the new globals are `TakeIncrement` of the old ones |
| Encoder.EncoderDriver.GetClicks | subassembly/encoder/prototype/TestFirmware/firmware/src/encoder/encoder.c:75-80 | the result and the new globals are `TakeClicks` of the old ones |
| LedArray.LedPinsWellFormed | subassembly/encoder/prototype/TestFirmware/firmware/src/led_array/led_array.c:45-77 | each of the 20 LEDs belongs to an existing phase, its flag is another phase's feed pin (never its own phase's), and no two LEDs share a (phase, flag) pair |
| LedArray.Sink | subassembly/encoder/prototype/TestFirmware/firmware/src/led_array/led_array.c:45-66 | the sinking pin of LED p is one of the five and differs from its feeding phase p/4 |
| LedArray.LedPin | subassembly/encoder/prototype/TestFirmware/firmware/src/led_array/led_array.c:45-66 | LED p is in phase p/4 with its sink's feed bit as flag |
| LedArray.LedPinIsTable | subassembly/encoder/prototype/TestFirmware/firmware/src/led_array/led_array.c:45-66 | the listed table agrees with the computed entries |
| LedArray.FeedBitsDistinct | subassembly/encoder/prototype/TestFirmware/firmware/src/led_array/led_array.c:25-77 | the five feed bits are single port bits (PA02 to PA06), pairwise disjoint |
| LedArray.FlagUpdate | subassembly/encoder/prototype/TestFirmware/firmware/src/led_array/led_array.c:113-119 | setting or clearing one flag bit changes no other bit of the byte |
| LedArray.SetLedDirections | subassembly/encoder/prototype/TestFirmware/firmware/src/led_array/led_array.c:109-120 | setting an LED keeps the five phases |
| LedArray.SetLedEffect | subassembly/encoder/prototype/TestFirmware/firmware/src/led_array/led_array.c:109-120 | setting an LED changes only its own phase's byte, turns its flag on for a nonzero value and off for zero, and never touches any phase's feed bit |
| LedArray.SetLedLights | subassembly/encoder/prototype/TestFirmware/firmware/src/led_array/led_array.c:109-120 | afterwards the named LED is lit exactly when the value is nonzero, and every other LED is lit exactly as before |
| LedArray.SetLedLightsItself | subassembly/encoder/prototype/TestFirmware/firmware/src/led_array/led_array.c:113-119 | the named LED is lit afterwards exactly when the value is nonzero |
| LedArray.SetLedLightsOthers | subassembly/encoder/prototype/TestFirmware/firmware/src/led_array/led_array.c:109-120 | every other LED keeps its lit state |
| LedArray.FlagKept | subassembly/encoder/prototype/TestFirmware/firmware/src/led_array/led_array.c:109-120 | every other LED's flag bit is unchanged |
| LedArray.SetLedIdempotent | subassembly/encoder/prototype/TestFirmware/firmware/src/led_array/led_array.c:109-120 | repeating a call changes nothing more |
| LedArray.NextPhase | subassembly/encoder/prototype/TestFirmware/firmware/src/led_array/led_array.c:99-103 | the next phase is one more, modulo five |
| LedArray.PhaseCycle | subassembly/encoder/prototype/TestFirmware/firmware/src/led_array/led_array.c:95-107 | five phase steps come back to the starting phase |
| LedArray.InitPortDir | subassembly/encoder/prototype/TestFirmware/firmware/src/led_array/led_array.c:92 | the port's non-LED pins keep their direction, and of the LED pins only phase 0's feed pin (PA02) is an output |
| LedArray.LedArrayDriver.constructor | subassembly/encoder/prototype/TestFirmware/firmware/src/led_array/led_array.c:68-79 | zeroed signals and directions, phase 0 |
| LedArray.LedArrayDriver.Init | subassembly/encoder/prototype/TestFirmware/firmware/src/led_array/led_array.c:83-93 | every phase's signals and directions are its feed bit alone, the phase is 0, and the direction register becomes `InitPortDir` of the old one |
| LedArray.LedArrayDriver.Phase | subassembly/encoder/prototype/TestFirmware/firmware/src/led_array/led_array.c:95-107 | the phase becomes `NextPhase` of the old one, the old phase's signals and directions are cleared on the port and the new phase's set, in that order |
| LedArray.LedArrayDriver.SetLed | subassembly/encoder/prototype/TestFirmware/firmware/src/led_array/led_array.c:109-120 | the directions become `SetLedDirections` of the old ones; nothing else changes |
| EncoderComms.InitialWellFormed | subassembly/encoder/prototype/TestFirmware/firmware/src/comms/comms.c:36-45 | the statics' initial values satisfy the driver's invariant |
| EncoderComms.BigEndian | subassembly/encoder/prototype/TestFirmware/firmware/src/comms/comms.c:125-137 | a register read loads exactly four bytes |
| EncoderComms.FromBigEndian | subassembly/encoder/prototype/TestFirmware/firmware/src/comms/comms.c:92-104 | four received bytes, most significant first, make the value b0·2^24 + b1·2^16 + b2·2^8 + b3 |
| EncoderComms.BigEndianRoundTrip | subassembly/encoder/prototype/TestFirmware/firmware/src/comms/comms.c:92-128 | assembling the four bytes of a value gives the value back |
| EncoderComms.FromBigEndianRoundTrip | subassembly/encoder/prototype/TestFirmware/firmware/src/comms/comms.c:92-128 | splitting the value of four bytes gives the bytes back |
| EncoderComms.BitsOfWrapI32 | subassembly/encoder/prototype/TestFirmware/firmware/src/comms/comms.c:92-128 | storing a 32-bit pattern in the signed `data_value` and taking its bits back loses nothing |
| EncoderComms.Updated | subassembly/encoder/prototype/TestFirmware/firmware/src/comms/comms.c:47-49 | `comms_update` changes only the two accumulators and keeps the driver's invariant |
| EncoderComms.UpdatesAccumulate | subassembly/encoder/prototype/TestFirmware/firmware/src/comms/comms.c:47-49 | two updates have the effect of one update by their (wrapped) sums |
| EncoderComms.WrapU32Accumulates | subassembly/encoder/prototype/TestFirmware/firmware/src/comms/comms.c:48 | 32-bit unsigned wrap-around addition is associative |
| EncoderComms.WrapI32Accumulates | subassembly/encoder/prototype/TestFirmware/firmware/src/comms/comms.c:49 | 32-bit signed wrap-around addition is associative |
| EncoderComms.ModularSum | subassembly/encoder/prototype/TestFirmware/firmware/src/comms/comms.c:47-49 | two values in the same window of 2^32 that agree modulo 2^32 are equal |
| EncoderComms.AddressByte | subassembly/encoder/prototype/TestFirmware/firmware/src/comms/comms.c:114-119 | the address byte a central sends for a register carries address 0x12 plus the register in its top seven bits and the direction in its low bit (also line 18) |
| EncoderComms.AddressMatched | subassembly/encoder/prototype/TestFirmware/firmware/src/comms/comms.c:113-153 | an address match selects register (address − 0x12) mod 256, empties the buffer, records the direction, and for a read of register 0 or 1 loads that accumulator's four bytes most significant first and zeroes it; any other case leaves both accumulators alone |
| EncoderComms.AddressSelectsRegister | subassembly/encoder/prototype/TestFirmware/firmware/src/comms/comms.c:114 | the address byte of a register selects that register |
| EncoderComms.Decoded | subassembly/encoder/prototype/TestFirmware/firmware/src/comms/comms.c:89-108 | exactly four bytes written to register 0 or 1 replace that accumulator with their value; otherwise nothing changes |
| EncoderComms.DataReady | subassembly/encoder/prototype/TestFirmware/firmware/src/comms/comms.c:70-112 | in a read the next loaded byte is sent and the offset advances, or 0xFF is sent once they are used up; in a write the byte is stored while the buffer has room and dropped once it is full |
| EncoderComms.Errored | subassembly/encoder/prototype/TestFirmware/firmware/src/comms/comms.c:154-156 | a bus error sets the state to 0xFF and changes nothing else |
| EncoderComms.Handled | subassembly/encoder/prototype/TestFirmware/firmware/src/comms/comms.c:69-157 | the handler serves data ready first, else address match, else error, else does nothing |
| EncoderComms.Command | subassembly/encoder/prototype/TestFirmware/firmware/src/comms/comms.c:64-67 | the command is the selected register and the bytes written to it |
| EncoderComms.Reads | subassembly/encoder/prototype/TestFirmware/firmware/src/comms/comms.c:70-81 | n data-ready events of a read send n bytes and keep the invariant |
| EncoderComms.ReadsDrain | subassembly/encoder/prototype/TestFirmware/firmware/src/comms/comms.c:74-78 | a read sends the loaded bytes in order, then 0xFF for every further byte, and ends with the buffer used up |
| EncoderComms.ReadRegister | subassembly/encoder/prototype/TestFirmware/firmware/src/comms/comms.c:113-142 | reading register 0 or 1 returns its four bytes most significant first, then 0xFF, and leaves it at zero; a read of any other register returns only 0xFF (also lines 70-81) |
| EncoderComms.Writes | subassembly/encoder/prototype/TestFirmware/firmware/src/comms/comms.c:82-108 | data-ready events of a write keep the selected register, the state and the invariant |
| EncoderComms.WritesStore | subassembly/encoder/prototype/TestFirmware/firmware/src/comms/comms.c:84-87 | a write keeps its first 20 bytes in order and drops the rest |
| EncoderComms.WritesSetRegister | subassembly/encoder/prototype/TestFirmware/firmware/src/comms/comms.c:89-108 | a write changes an accumulator only when four bytes have arrived for register 0 or 1, and later bytes leave it as the fourth left it |
| EncoderComms.WriteCommand | subassembly/encoder/prototype/TestFirmware/firmware/src/comms/comms.c:64-67 | a write to any register leaves that register and its first (at most 20) bytes for `comms_get_command` (also lines 82-112, 144-147) |
| EncoderComms.WriteThenReadBack | subassembly/encoder/prototype/TestFirmware/firmware/src/comms/comms.c:82-142 | writing four bytes to register 0 or 1 and reading the register back returns the same bytes, then 0xFF |
| EncoderComms.UpdateThenRead | subassembly/encoder/prototype/TestFirmware/firmware/src/comms/comms.c:47-49 | after `comms_update` a read of register 1 returns the new click total and a read of register 0 the new value, both wrapped at 32 bits (also lines 113-142) |
| EncoderComms.CommsDriver.constructor | subassembly/encoder/prototype/TestFirmware/firmware/src/comms/comms.c:36-45 | the statics' initial values |
| EncoderComms.CommsDriver.Update | subassembly/encoder/prototype/TestFirmware/firmware/src/comms/comms.c:47-49 | the statics become `Updated` of the old ones |
| EncoderComms.CommsDriver.GetCommand | subassembly/encoder/prototype/TestFirmware/firmware/src/comms/comms.c:64-67 | the command and the copied bytes are `Command` of the statics; bytes of the destination past the size keep their values |
| EncoderComms.CommsDriver.Handler | subassembly/encoder/prototype/TestFirmware/firmware/src/comms/comms.c:69-157 | the statics and the byte sent are `Handled` of the old statics and the event |
| EncoderComms.CommsDriver.LoadBigEndian | subassembly/encoder/prototype/TestFirmware/firmware/src/comms/comms.c:125-137 | the four stores put the value's bytes, most significant first, at the front of the buffer, and the size becomes 4 |
| Controller.Apply | subassembly/encoder/prototype/TestFirmware/firmware/src/controller.c:23 | one `led_array_set_led` call sets the named LED to the value and leaves every other LED |
| Controller.Frame | subassembly/encoder/prototype/TestFirmware/firmware/src/controller.c:21-25 | a list of calls leaves as many LEDs as there were |
| Controller.FrameAppend | subassembly/encoder/prototype/TestFirmware/firmware/src/controller.c:255-290 | calls made one list after another act in that order |
| Controller.FrameSnoc | subassembly/encoder/prototype/TestFirmware/firmware/src/controller.c:255-290 | one more call acts on what the calls before it left |
| Controller.FrameShort | subassembly/encoder/prototype/TestFirmware/firmware/src/controller.c:62-78 | two or three calls act one after the other |
| Controller.ClearCalls | subassembly/encoder/prototype/TestFirmware/firmware/src/controller.c:21-25 | `clear_leds` makes one call per LED of the ring, each naming an LED of the ring |
| Controller.ClearPrefix | subassembly/encoder/prototype/TestFirmware/firmware/src/controller.c:22-24 | the k-th call of the clearing loop turns LED k off |
| Controller.ClearFrame | subassembly/encoder/prototype/TestFirmware/firmware/src/controller.c:21-25 | clearing turns every LED of the ring off, whatever it showed |
| Controller.ClearPrefixFrame | subassembly/encoder/prototype/TestFirmware/firmware/src/controller.c:22-24 | after k turns of the clearing loop the first k LEDs are off and the rest unchanged |
| Controller.Direction | subassembly/encoder/prototype/TestFirmware/firmware/src/controller.c:50 | the direction is -1, 0 or 1, zero exactly when the speed is, and of the speed's sign (also lines 88, 146) |
| Controller.Absorbed | subassembly/encoder/prototype/TestFirmware/firmware/src/controller.c:44-46 | the new speed is the old speed plus the encoder delta, modulo 2^16 |
| Controller.Offset | subassembly/encoder/prototype/TestFirmware/firmware/src/controller.c:63 | i places in a direction of -1, 0 or 1 is i times the direction (also lines 101, 119, 166) |
| Controller.Along | subassembly/encoder/prototype/TestFirmware/firmware/src/controller.c:63-71 | the LED i places from the focused one is an LED of the ring |
| Controller.AlongNear | subassembly/encoder/prototype/TestFirmware/firmware/src/controller.c:62-78 | the first three places are the focused LED and the next two in the direction (distinct when moving, all the focused LED when stopped) |
| Controller.OntoRing | subassembly/encoder/prototype/TestFirmware/firmware/src/controller.c:65-71 | the two `while` loops bring an index at most 20 off the ring onto it |
| Controller.ChaseCalls | subassembly/encoder/prototype/TestFirmware/firmware/src/controller.c:62-78 | the chase makes three calls, on LEDs of the ring |
| Controller.Type0 | subassembly/encoder/prototype/TestFirmware/firmware/src/controller.c:42-79 | type 0 absorbs the delta into the speed, moves the focused LED one place in the speed's direction round the ring, changes nothing else, and names only LEDs of the ring |
| Controller.ChaseShows | subassembly/encoder/prototype/TestFirmware/firmware/src/controller.c:62-78 | the chase sets the focused LED to full, then the next two to half |
| Controller.Type0Shows | subassembly/encoder/prototype/TestFirmware/firmware/src/controller.c:48-78 | type 0 leaves the ring dark but for the chase |
| Controller.Type0Frame | subassembly/encoder/prototype/TestFirmware/firmware/src/controller.c:42-79 | type 0 shows the focused LED at full brightness and the two after it in the direction of motion at half, all else dark; at speed 0 only the focused LED, at half |
| Controller.PairCalls | subassembly/encoder/prototype/TestFirmware/firmware/src/controller.c:100-116 | one side of type 1 makes two calls, on LEDs of the ring |
| Controller.Type1 | subassembly/encoder/prototype/TestFirmware/firmware/src/controller.c:81-135 | type 1 absorbs the delta, moves the focused LED one place in the speed's direction, changes nothing else, and names only LEDs of the ring |
| Controller.PairShows | subassembly/encoder/prototype/TestFirmware/firmware/src/controller.c:100-116 | one side sets the focused LED to full, then its neighbour in that direction to half |
| Controller.Type1Shows | subassembly/encoder/prototype/TestFirmware/firmware/src/controller.c:86-134 | type 1 leaves the ring dark but for the pair ahead and then the pair behind |
| Controller.Type1Frame | subassembly/encoder/prototype/TestFirmware/firmware/src/controller.c:81-135 | type 1 shows the focused LED at full between its two neighbours at half, all else dark; at speed 0 only the focused LED, at half |
| Controller.SweepCalls | subassembly/encoder/prototype/TestFirmware/firmware/src/controller.c:165-181 | the sweep makes one call per step, on LEDs of the ring |
| Controller.NextSweep | subassembly/encoder/prototype/TestFirmware/firmware/src/controller.c:148-155 | the sweep counter moves on by one and restarts at zero when it reaches 40 (or -40) |
| Controller.Type2 | subassembly/encoder/prototype/TestFirmware/firmware/src/controller.c:139-184 | type 2 absorbs the delta, advances the sweep (kept in 0..39), changes nothing else, and ends by setting the focused LED to full |
| Controller.SweepLength | subassembly/encoder/prototype/TestFirmware/firmware/src/controller.c:165 | the sweep loop runs as many times as the (non-negative) sweep counter, and not at all when it is negative |
| Controller.Type2Moves | subassembly/encoder/prototype/TestFirmware/firmware/src/controller.c:148-163 | the focused LED stays while the sweep runs, and moves one place in the speed's direction exactly when the sweep completes |
| Controller.AlongInjective | subassembly/encoder/prototype/TestFirmware/firmware/src/controller.c:165-181 | two places along the ring from the same LED name the same LED only when 20 places apart |
| Controller.SweepFrame | subassembly/encoder/prototype/TestFirmware/firmware/src/controller.c:165-181 | after k sweep steps the LED j places along is dim exactly when the sweep has passed it and not yet come round 20 places later to put it out |
| Controller.Type2Frame | subassembly/encoder/prototype/TestFirmware/firmware/src/controller.c:139-184 | type 2 shows the focused LED at full and the LEDs the sweep has passed in the last 20 steps dim, all else dark; at speed 0 the focused LED alone |
| Controller.SweepStill | subassembly/encoder/prototype/TestFirmware/firmware/src/controller.c:165-181 | at speed 0 every sweep step names the focused LED |
| Controller.NextCounter | subassembly/encoder/prototype/TestFirmware/firmware/src/controller.c:187 | the tick counter goes up by one, wrapping at 32 bits |
| Controller.Magnitude | subassembly/encoder/prototype/TestFirmware/firmware/src/controller.c:189 | the speed's magnitude, with a stopped encoder counting as 1 |
| Controller.FiresAsWritten | subassembly/encoder/prototype/TestFirmware/firmware/src/controller.c:189-191 | the timer as written: a magnitude narrowing to 0 never fires; a positive narrowed magnitude fires when the product reaches 100000; a negative one fires when the product of the counter and its negation is at most 2^32 − 100000 |
| Controller.FiresAsWrittenStallsAt256 | subassembly/encoder/prototype/TestFirmware/firmware/src/controller.c:189-191 | as written, at speed 256 the animation never advances, while at speed 255 it advances on every tick |
| Controller.Fires | subassembly/encoder/prototype/TestFirmware/firmware/src/controller.c:189-191 | the intended timer fires once the counter alone reaches 100000, and never at counter 0 |
| Controller.FiresMonotone | subassembly/encoder/prototype/TestFirmware/firmware/src/controller.c:189-191 | the intended timer never fires earlier for a smaller counter or a slower speed |
| Controller.MulMonotone | subassembly/encoder/prototype/TestFirmware/firmware/src/controller.c:191 | products grow with their factors |
| Controller.FiresAgreesWhenNarrow | subassembly/encoder/prototype/TestFirmware/firmware/src/controller.c:189-191 | the intended timer agrees with the one as written wherever the int8 narrowing and the 32-bit product lose nothing |
| Controller.Normal | subassembly/encoder/prototype/TestFirmware/firmware/src/controller.c:186-207 | normal mode restarts the count and runs the selected animation when the timer as written (`FiresAsWritten`) fires (and runs nothing for a type that is no animation); otherwise counts the tick and absorbs the delta into the speed; the mode and the type never change, and the controller stays well formed |
| Controller.NormalPeriod | subassembly/encoder/prototype/TestFirmware/firmware/src/controller.c:186-207 | with the encoder still: for a magnitude below 128 (and no 32-bit overflow) the animation advances exactly when the next count times the speed reaches the threshold, otherwise only the count moves; a magnitude that is a multiple of 256 never advances it; a magnitude whose low byte is 128 or more advances it as soon as the wrapped product reaches the threshold |
| Controller.NormalOutcome | subassembly/encoder/prototype/TestFirmware/firmware/src/controller.c:186-207 | with the encoder still, a tick either fires (count restarted, calls made) or only counts |
| Controller.FiresAsWrittenCases | subassembly/encoder/prototype/TestFirmware/firmware/src/controller.c:189-191 | the timer as written, by the magnitude's low byte: the intended product below 128, never for a multiple of 256, and the wrapped negative product from 128 up |
| Controller.AdjustedType | subassembly/encoder/prototype/TestFirmware/firmware/src/controller.c:209-219 | a moved encoder leaves the type in 0..2, congruent modulo 3 to the old type plus the delta; a still one leaves it |
| Controller.ModeAdjust | subassembly/encoder/prototype/TestFirmware/firmware/src/controller.c:209-226 | adjustment changes only the type, clears the ring and lights the LED numbered by the type |
| Controller.ModeAdjustShowsType | subassembly/encoder/prototype/TestFirmware/firmware/src/controller.c:209-226 | after an adjustment the type is an existing animation and the ring shows only that LED, at full |
| Controller.Mode | subassembly/encoder/prototype/TestFirmware/firmware/src/controller.c:228-239 | mode 0 runs normal mode, mode 1 adjustment, any other mode nothing; the mode never changes |
| Controller.SwitchMode | subassembly/encoder/prototype/TestFirmware/firmware/src/controller.c:35-39 | switching toggles between modes 0 and 1 (any nonzero mode goes to 0), changes nothing else, and clears the ring |
| Controller.SwitchModeTwice | subassembly/encoder/prototype/TestFirmware/firmware/src/controller.c:35-39 | switching twice comes back to the same mode |
| Controller.InitStep | subassembly/encoder/prototype/TestFirmware/firmware/src/controller.c:27-33 | init clears the ring, focuses LED 0 and lights it at full |
| Controller.CommandValue | subassembly/encoder/prototype/TestFirmware/firmware/src/controller.c:276-279 | the value of command 0 has the bits of the first four command bytes, most significant first |
| Controller.CommandStep | subassembly/encoder/prototype/TestFirmware/firmware/src/controller.c:271-289 | command 0 runs the mode with that value, command 1 switches mode, any other command does nothing |
| Controller.TickStep | subassembly/encoder/prototype/TestFirmware/firmware/src/controller.c:255-290 | with no clicks and a command other than 1 the mode stays; in modes 0 and 1, a click or a command 1 (not both) toggles the mode and both together leave it; a click clears the ring first |
| Controller.TickStepWellFormed | subassembly/encoder/prototype/TestFirmware/firmware/src/controller.c:255-290 | every tick keeps the focused LED on the ring, the type an existing animation and the sweep in range, and names only LEDs of the ring |
| Controller.ModeWellFormed | subassembly/encoder/prototype/TestFirmware/firmware/src/controller.c:228-239 | running the mode keeps the controller well formed and names only LEDs of the ring |
| Controller.OnRingAppend | subassembly/encoder/prototype/TestFirmware/firmware/src/controller.c:255-290 | calls on the ring, one list after another, stay on the ring |
| Controller.Directions | subassembly/encoder/prototype/TestFirmware/firmware/src/led_array/led_array.c:109-120 | the LED array's direction table keeps its five phases under the controller's calls (also controller.c:23, 32, 74-76, 177-183, 222-225) |
| Controller.DirectionsShowFrame | subassembly/encoder/prototype/TestFirmware/firmware/src/controller.c:21-290 | the prototype's LED array has no dimming: after the calls it lights exactly the LEDs the calls leave at a nonzero brightness |
| Controller.ShowCalls | subassembly/encoder/prototype/TestFirmware/firmware/src/controller.c:255-290 | making the calls on the LED array leaves its directions as `Directions` says |
| Controller.Normalize | subassembly/encoder/prototype/TestFirmware/firmware/src/controller.c:54-60 | the `while` loops bring an int8 onto 0..n−1 as the remainder modulo n (also lines 213-218) |
| Controller.ShiftMod | subassembly/encoder/prototype/TestFirmware/firmware/src/controller.c:54-60 | adding the modulus leaves the remainder |
| Controller.LedAlong | subassembly/encoder/prototype/TestFirmware/firmware/src/controller.c:63-71 | the LED computed with the int8 sum and the `while` loops is `Along` |
| Controller.ClearLeds | subassembly/encoder/prototype/TestFirmware/firmware/src/controller.c:21-25 | `clear_leds` makes exactly the calls of `ClearCalls` |
| Controller.ControllerDriver.constructor | subassembly/encoder/prototype/TestFirmware/firmware/src/controller.c:14-19 | the statics' initial values, speed 1, and a zeroed command buffer (also lines 137, 252-253) |
| Controller.ControllerDriver.ProcessInit | subassembly/encoder/prototype/TestFirmware/firmware/src/controller.c:27-33 | the statics and the calls are `InitStep` of the old statics |
| Controller.ControllerDriver.ProcessSwitchMode | subassembly/encoder/prototype/TestFirmware/firmware/src/controller.c:35-39 | the statics and the calls are `SwitchMode` of the old statics |
| Controller.ControllerDriver.AbsorbSpeed | subassembly/encoder/prototype/TestFirmware/firmware/src/controller.c:44-50 | the speed absorbs the delta, the direction is its sign, nothing else changes |
| Controller.ControllerDriver.ProcessType0 | subassembly/encoder/prototype/TestFirmware/firmware/src/controller.c:42-79 | the statics and the calls are `Type0` of the old statics |
| Controller.ControllerDriver.ProcessType1 | subassembly/encoder/prototype/TestFirmware/firmware/src/controller.c:81-135 | the statics and the calls are `Type1` of the old statics |
| Controller.ControllerDriver.ProcessType2 | subassembly/encoder/prototype/TestFirmware/firmware/src/controller.c:139-184 | the statics and the calls are `Type2` of the old statics |
| Controller.ControllerDriver.ProcessNormal | subassembly/encoder/prototype/TestFirmware/firmware/src/controller.c:186-207 | the statics and the calls are `Normal` of the old statics: the magnitude is narrowed to int8 and the product taken on 32 bits, as in the code |
| Controller.ControllerDriver.ProcessModeAdjustment | subassembly/encoder/prototype/TestFirmware/firmware/src/controller.c:209-226 | the statics and the calls are `ModeAdjust` of the old statics |
| Controller.ControllerDriver.ProcessMode | subassembly/encoder/prototype/TestFirmware/firmware/src/controller.c:228-239 | the statics and the calls are `Mode` of the old statics |
| Controller.ControllerDriver.RunCommand | subassembly/encoder/prototype/TestFirmware/firmware/src/controller.c:273-289 | the statics and the calls are `CommandStep` of the old statics and the command buffer |
| Controller.ControllerDriver.Tick | subassembly/encoder/prototype/TestFirmware/firmware/src/controller.c:255-290 | the encoder is ticked and its clicks then delta taken, the bus adds them to its accumulators, the controller takes `TickStep` with the bus's command, the command buffer gets the command's bytes, and the LED array's directions follow the calls in order; the controller stays well formed |
| Controller.TakeInput | subassembly/encoder/prototype/TestFirmware/firmware/src/controller.c:258-263 | the encoder is ticked, its clicks then its delta are taken, and the bus adds both to its accumulators |

## Left out

- Hardware access is left out: register pokes, clock and pin configuration, `encoder_init`, `comms_init`, the vendor I2C peripheral driver and the ACK/NAK commands written to it. Register reads are parameters and writes are returned values.
- Interrupt atomicity is not modelled. Each handler or method call is treated as atomic, as are the critical sections of the main loops.
- The illumination engine is left out of `Protocol.Poll`, and `process_command`/`build_response` drop their unused illumination parameter. Neither reads it, so nothing is lost.
- The LED drivers' I/O (`smart_leds` writes, the HSV conversion crate) is left out. `Pattern.PatternIlluminator.Render` takes `hsv2rgb` as a function parameter.
- `led_array_tick` is declared in led_array.h:18 but defined nowhere. The call at controller.c:256 is left out of `Controller.ControllerDriver.Tick`.
- `controller_init` is not one member. Its sub-initialisations are the drivers' constructors and `LedArray.LedArrayDriver.Init`, and its own statics are `Controller.ControllerDriver.constructor` followed by `ProcessInit`.
- `KeystrikeProperties.StruckFromEffect` states which keys a strike lights, that their clock is zero, and that their level is 1 only for neighbours and 0 only for keys two hops away. It does not state the exact level a key reached by two paths gets. The depth-first walk order decides that, and `IlluminatorData.StrikeWalk` gives the full order of the calls.
- `Comms.WriteStep`, `Comms.BusStatus.WriteData`: the byte is stored only when the cursor is inside the 20-byte array. The source indexes the array unguarded and would panic past it, so this is a precondition.
- `Comms.ReadStep`, `Comms.BusStatus.ReadData`: the same bound is a precondition when bytes remain to be served.
- `LedArray.LedArrayDriver.SetLed` requires a position below 20. led_array.c indexes its pin table unguarded.
- `Controller.ControllerDriver.Tick` requires the comms buffer size to be at most 20. A write raises the size only with the offset, which stops at 20, and an address match zeroes both. The size passes 20 only after a read of register 0 or 1 loads 4 bytes (comms.c:121-137), a bus error then leaves the state at 0xFF (comms.c:154-155), and more than 16 data bytes then arrive (comms.c:84-86). `comms_get_command` would then copy past the buffer.
- `Controller.CommandStep`: the command is a byte, as declared in comms.h:19. comms.c:64 writes it through a `uint32_t *`.
- `Controller.ControllerDriver.Tick`: `comms_addr` persists between transactions, so the last command is applied again on every tick. The model keeps this behaviour.
- `Controller.Type0Frame`: type 0's tail lights the two LEDs ahead of the focused one in the direction of motion, as the code does. The comment at controller.c:41 says behind.
- `Controller.Type0Frame`, `Controller.Type1Frame`: at speed 0 the focused LED ends at half brightness. The later tail calls overwrite the full one, as in the code.
- `Controller.SweepLength`: a negative sweep counter makes the sweep loop do nothing, as in the code.
- `Synth.SynthEngine.Update`, `Keystrike.KeystrikeIlluminator.Update`: the octave is kept in 1..=8. The source indexes notes and keys with `octave - 1`, and only `set_octave` with 1..=8 or an octave key changes it.
- `Keystrike.Updated`: the per-key counters add `delta_t_ms` with 32-bit wrap-around, as a release build does. A debug build would panic on overflow instead.
- `KeyboardMatrix.KeyboardState.BuildNew` works on sequences rather than the fixed arrays of the source. The values are the same, and `build_new` returns a fresh state either way.
- `Synth.SynthEngine.Update`: `dirty` is true exactly when an octave key set the octave (even to its old value) or some note's state changed during the call. The net state can still be unchanged (`Synth.DirtyWithoutNetChange`), and the held top-C key stays pressed (`Synth.HeldTopCStaysPressed`).
- The keystrike illuminator's unit tests (keystrike_illuminator.rs:330, 381, 437) list key 15 among the keys a press of key 18 lights. Two hops from key 18 in the adjacency table never reach key 15, so that expectation is not restated. `KeystrikeProperties.StruckFromEffect` states which keys are actually lit.

## Findings

| source | as written | input that shows it | evidently intended | confidence | as-written member | corrected member |
|---|---|---|---|---|---|---|
| subassembly/keyboard_matrix/firmware/synth_engine/src/lib.rs:135-140 | `note_index_to_midi` adds `(octave + 1) * 12` to a note index that already counts the octaves | octave 4, note index 36 (C4) gives MIDI 120 | MIDI 60 for C4, that is 24 + note index | not executed | Synth.NoteIndexToMidiCountsOctaveTwice | Synth.MidiOfNoteIndexIsStandard |
| subassembly/encoder/firmware/led_matrix/src/lib.rs:104 | LED 15 is listed as `(PinD, PinD)` | driving LED 15 puts the same pin on both ends, and pair (PinD, PinE) is never driven | `(PinD, PinE)`, so the 20 LEDs cover the 20 ordered pairs of distinct pins | not executed | LedMatrix.LedPinDrivesAsWrittenShortsLed15 | LedMatrix.LedPinDrivesDistinct |
| subassembly/encoder/prototype/TestFirmware/firmware/src/controller.c:189-191 | the int16 speed's magnitude is narrowed to `int8_t abs_speed` | speed 256 narrows to 0 and the animation never advances; speed 255 narrows to -1, and the wrapped product fires on every tick | the timer fires when counter × \|speed\| reaches 100000, and a faster speed never fires later; `Normal` and `ProcessNormal` follow the code as written, `Fires` states the intended timer | not executed | Controller.FiresAsWrittenStallsAt256 | Controller.FiresMonotone |
