/** The note engine of the keyboard board (the synth_engine crate).
    Each of the 97 notes, C1 to C9, carries a `NoteState`. Keys 0..7 of the matrix choose the
    octave; keys 8..20 play the thirteen notes from C to the next C in the current octave.
    One `Update` per scan moves every note one step through its life cycle and records in
    `dirty` whether anything was written. */
module Synth {
  import opened Prelude
  import KeyboardMatrix

  /** MIDI number of note index 0 (C1). */
  const MIDI_NOTE_OFFSET: u8 := 24
  const NUM_NOTES: nat := 97
  const NOTES_PER_OCTAVE: nat := 12
  /** Keys 0..7 select octaves 1..8. */
  const OCTAVE_KEYS: nat := 8
  /** Notes 0..95: the twelve notes of each of the eight octaves, without the final C9. */
  const OCTAVE_NOTES: nat := 96

  datatype NoteState = Off | Pressed | Sustain | Release
  {
    /** Wire encoding of a note state. */
    function ToInt(): (r: u8)
      ensures r < 4
    {
      match this
      case Off => 0
      case Pressed => 1
      case Sustain => 2
      case Release => 3
    }

    predicate IsActive() {
      Pressed? || Sustain? || Release?
    }

    /** One scan with the note's key held. */
    function Activate(): (r: NoteState)
      ensures r.IsActive()
      ensures r == Sustain <==> Pressed? || Sustain?
    {
      match this
      case Off => Pressed
      case Pressed => Sustain
      case Sustain => Sustain
      case Release => Pressed
    }

    /** One scan with the note's key not held. */
    function Deactivate(): (r: NoteState)
      ensures !r.Pressed? && !r.Sustain?
      ensures r == Off <==> Off? || Release?
    {
      match this
      case Off => Off
      case Pressed => Release
      case Sustain => Release
      case Release => Off
    }
  }

  /** The encoding tells states apart, and exactly the non-`Off` states are active. */
  lemma ToIntInjective(a: NoteState, b: NoteState)
    ensures a.ToInt() == b.ToInt() ==> a == b
    ensures a.IsActive() <==> a != Off
  {
  }

  /** Held for two scans a note sustains; released for two scans it is silent. */
  lemma NoteLifeCycle(s: NoteState)
    ensures s.Activate().Activate() == Sustain
    ensures s.Deactivate().Deactivate() == Off
  {
  }

  /** Semitone offset (0..12 from the octave's C) played by matrix key `idx`. */
  function IndexToNoteOffset(idx: u8): (r: u8)
    ensures r <= 12
  {
    match idx
    case 11 => 3
    case 12 => 1
    case 13 => 0
    case 14 => 2
    case 10 => 6
    case 15 => 4
    case 16 => 5
    case 17 => 7
    case 8 => 10
    case 9 => 8
    case 18 => 9
    case 19 => 11
    case 20 => 12
    case _ => 0
  }

  /** Matrix key that plays semitone offset `offset`. */
  function NoteOffsetToIndex(offset: u8): (r: u8)
    ensures r == 0 || 8 <= r <= 20
  {
    match offset
    case 3 => 11
    case 1 => 12
    case 0 => 13
    case 2 => 14
    case 6 => 10
    case 4 => 15
    case 5 => 16
    case 7 => 17
    case 10 => 8
    case 8 => 9
    case 9 => 18
    case 11 => 19
    case 12 => 20
    case _ => 0
  }

  /** The two maps are inverse bijections between keys 8..20 and offsets 0..12. */
  lemma KeyOffsetInverse(key: u8, offset: u8)
    ensures 8 <= key <= 20 ==> NoteOffsetToIndex(IndexToNoteOffset(key)) == key
    ensures offset <= 12 ==>
      8 <= NoteOffsetToIndex(offset) <= 20 && IndexToNoteOffset(NoteOffsetToIndex(offset)) == offset
  {
  }

  /** Index of the note `offset` semitones above the C of `octave` (octave 1 starts at 0). */
  function OctaveNoteOffsetToNoteIndex(octave: u8, offset: u8): (r: u8)
    requires 1 <= octave && (octave - 1) * 12 + offset < 0x100
    ensures offset < 12 ==> r / 12 == octave - 1 && r % 12 == offset
    ensures octave <= 8 && offset <= 12 ==> r < NUM_NOTES
  {
    (octave - 1) * 12 + offset
  }

  /** Semitone offset of a note index relative to the C of `octave`. */
  function NoteIndexToNoteOffset(octave: u8, noteIndex: u8): (r: u8)
    requires 1 <= octave && (octave - 1) * 12 <= noteIndex
    ensures (octave - 1) * 12 + r == noteIndex
    ensures OctaveNoteOffsetToNoteIndex(octave, r) == noteIndex
    ensures noteIndex < octave * 12 ==> r < 12
  {
    noteIndex - (octave - 1) * 12
  }

  /** Offsets and note indices convert back and forth for a fixed octave. */
  lemma NoteIndexOffsetRoundTrip(octave: u8, offset: u8, noteIndex: u8)
    requires 1 <= octave && (octave - 1) * 12 + offset < 0x100
    ensures NoteIndexToNoteOffset(octave, OctaveNoteOffsetToNoteIndex(octave, offset)) == offset
    ensures (octave - 1) * 12 <= noteIndex ==>
      OctaveNoteOffsetToNoteIndex(octave, NoteIndexToNoteOffset(octave, noteIndex)) == noteIndex
  {
  }

  /** The test values: C4 is note 36 (MIDI 60 once offset by 24), C1 is note 0, C9 is note 96. */
  lemma NoteIndexExamples()
    ensures OctaveNoteOffsetToNoteIndex(4, 0) == 36 && 36 + MIDI_NOTE_OFFSET == 60
    ensures OctaveNoteOffsetToNoteIndex(1, 0) == 0
    ensures OctaveNoteOffsetToNoteIndex(8, 12) == 96
    ensures NoteIndexToNoteOffset(4, 36) == 0 && NoteIndexToNoteOffset(8, 96) == 12
  {
  }

  /** Note played by key `idx` in `octave`. */
  function IndexToNoteIndex(octave: u8, idx: u8): (r: u8)
    requires 1 <= octave <= 8
    ensures (octave - 1) * 12 <= r <= (octave - 1) * 12 + 12 && r < NUM_NOTES
    ensures r == OctaveNoteOffsetToNoteIndex(octave, IndexToNoteOffset(idx))
  {
    OctaveNoteOffsetToNoteIndex(octave, IndexToNoteOffset(idx))
  }

  /** The thirteen note keys play thirteen distinct notes. */
  lemma KeysPlayDistinctNotes(octave: u8, a: u8, b: u8)
    requires 1 <= octave <= 8 && 8 <= a <= 20 && 8 <= b <= 20 && a != b
    ensures IndexToNoteIndex(octave, a) != IndexToNoteIndex(octave, b)
  {
    KeyOffsetInverse(a, 0);
    KeyOffsetInverse(b, 0);
  }

  /** `note_index_to_midi` as written: it adds the octave's offset to a note index that already
      contains it. */
  function NoteIndexToMidi(octave: u8, noteIndex: u8): (r: u8)
    requires MIDI_NOTE_OFFSET as int + (octave + 1) * 12 + noteIndex < 0x100
    ensures (noteIndex as nat) < NUM_NOTES ==> r == MidiOfNoteIndex(noteIndex) + (octave + 1) * 12
    ensures r >= MIDI_NOTE_OFFSET + 12 + noteIndex
  {
    MIDI_NOTE_OFFSET + (octave + 1) * 12 + noteIndex
  }

  /** C4 (note 36 in octave 4) comes out as MIDI 120 rather than 60. */
  lemma NoteIndexToMidiCountsOctaveTwice()
    ensures NoteIndexToMidi(4, OctaveNoteOffsetToNoteIndex(4, 0)) == 120
    ensures MidiOfNoteIndex(OctaveNoteOffsetToNoteIndex(4, 0)) == 60
  {
  }

  /** The MIDI number of a note index, as the note table is laid out (note 0 is C1 = MIDI 24). */
  function MidiOfNoteIndex(noteIndex: u8): (r: u8)
    requires noteIndex as nat < NUM_NOTES
    ensures r >= MIDI_NOTE_OFFSET
  {
    MIDI_NOTE_OFFSET + noteIndex
  }

  /** In standard MIDI numbering the note `offset` semitones above the C of octave `o` is
      12 * (o + 1) + offset, whatever octave the keyboard is in. */
  lemma MidiOfNoteIndexIsStandard(octave: u8, offset: u8)
    requires 1 <= octave <= 8 && offset <= 12
    ensures MidiOfNoteIndex(OctaveNoteOffsetToNoteIndex(octave, offset)) == 12 * (octave + 1) + offset
  {
  }

  // ---------------------------------------------------------------------------------------
  // The meaning of one `update`, as functions of the state before it.

  /** The highest key below `i` pressed in this scan. */
  function HighestPressedBelow(pressed: seq<bool>, i: nat): (r: Option<nat>)
    requires i <= |pressed|
    ensures r.Some? ==> r.value < i && pressed[r.value] && forall k :: r.value < k < i ==> !pressed[k]
    ensures r.None? ==> forall k :: 0 <= k < i ==> !pressed[k]
  {
    if i == 0 then None
    else if pressed[i - 1] then Some(i - 1)
    else HighestPressedBelow(pressed, i - 1)
  }

  /** The octave once keys below `i` have been looked at: the highest pressed octave key wins. */
  function OctaveAfter(octave: u8, pressed: seq<bool>, i: nat): (r: u8)
    requires i <= OCTAVE_KEYS <= |pressed|
  {
    match HighestPressedBelow(pressed, i)
    case None => octave
    case Some(k) => k + 1
  }

  /** Whether the octave loop assigned the octave while looking at keys below `i`. */
  function OctaveWrites(octave: u8, pressed: seq<bool>, i: nat): bool
    requires i <= OCTAVE_KEYS <= |pressed|
  {
    i > 0 &&
    (OctaveWrites(octave, pressed, i - 1) || (pressed[i - 1] && OctaveAfter(octave, pressed, i - 1) != i))
  }

  /** An octave in 1..8 stays in 1..8, and a changed octave was written. */
  lemma {:induction false} OctaveSelection(octave: u8, pressed: seq<bool>, i: nat)
    requires i <= OCTAVE_KEYS <= |pressed|
    ensures 1 <= octave <= 8 ==> 1 <= OctaveAfter(octave, pressed, i) <= 8
    ensures OctaveAfter(octave, pressed, i) != octave ==> OctaveWrites(octave, pressed, i)
  {
    if i > 0 {
      OctaveSelection(octave, pressed, i - 1);
    }
  }

  /** Pressing keys 2 and 5 from octave 6 writes the octave twice and ends where it began. */
  lemma OctaveRewrittenToSameValue()
    ensures var p := seq(NUM_KEYS_OF_MATRIX, k => k == 2 || k == 5);
      OctaveAfter(6, p, OCTAVE_KEYS) == 6 && OctaveWrites(6, p, OCTAVE_KEYS)
  {
    var p := seq(NUM_KEYS_OF_MATRIX, k => k == 2 || k == 5);
    assert HighestPressedBelow(p, 3) == Some(2);
    assert OctaveWrites(6, p, 3);
    assert HighestPressedBelow(p, 6) == Some(5);
    assert HighestPressedBelow(p, 8) == Some(5);
  }

  const NUM_KEYS_OF_MATRIX: nat := KeyboardMatrix.NUM_KEYS

  /** Note `n` once the clearing loop has handled every note below `k`: notes of octaves other
      than `current` take one `Deactivate` step. */
  function ClearedAt(notes: seq<NoteState>, current: nat, k: nat, n: nat): NoteState
    requires n < |notes|
  {
    if n < k && n < OCTAVE_NOTES && n / 12 + 1 != current then notes[n].Deactivate() else notes[n]
  }

  ghost predicate ClearedUpTo(now: seq<NoteState>, before: seq<NoteState>, current: nat, k: nat) {
    |now| == NUM_NOTES && |before| == NUM_NOTES &&
    forall n :: 0 <= n < NUM_NOTES ==> now[n] == ClearedAt(before, current, k, n)
  }

  /** Whether clearing the notes below `k` changed any of them. */
  function ClearChangesBelow(notes: seq<NoteState>, current: nat, k: nat): bool
    requires k <= OCTAVE_NOTES <= |notes|
  {
    k > 0 &&
    (ClearChangesBelow(notes, current, k - 1) ||
     ((k - 1) / 12 + 1 != current && notes[k - 1].Deactivate() != notes[k - 1]))
  }

  /** All notes after the clearing loop. */
  function Cleared(notes: seq<NoteState>, current: nat): (r: seq<NoteState>)
    requires |notes| == NUM_NOTES
    ensures |r| == NUM_NOTES
  {
    seq(NUM_NOTES, n requires 0 <= n < NUM_NOTES => ClearedAt(notes, current, OCTAVE_NOTES, n))
  }

  /** A note after one scan of its key. */
  function HeldStep(s: NoteState, held: bool): NoteState {
    if held then s.Activate() else s.Deactivate()
  }

  /** Key that plays note `n` in octave `current`, when one does. */
  function KeyOfNote(current: u8, n: nat): (r: Option<u8>)
    requires 1 <= current <= 8
    ensures r.Some? ==> 8 <= r.value <= 20 && IndexToNoteIndex(current, r.value) as nat == n
    ensures r.None? ==> forall k: u8 :: 8 <= k <= 20 ==> IndexToNoteIndex(current, k) as nat != n
  {
    var base := (current - 1) * 12;
    if base <= n <= base + 12 then
      KeyOffsetInverse(0, (n - base) as u8);
      Some(NoteOffsetToIndex((n - base) as u8))
    else
      None
  }

  /** Note `n` once the key loop has handled keys below `i`. */
  function KeyedAt(mid: seq<NoteState>, current: u8, held: seq<bool>, i: nat, n: nat): NoteState
    requires 1 <= current <= 8 && |held| == NUM_KEYS_OF_MATRIX && n < |mid|
  {
    match KeyOfNote(current, n)
    case Some(k) => if (k as nat) < i then HeldStep(mid[n], held[k]) else mid[n]
    case None => mid[n]
  }

  ghost predicate KeyedUpTo(now: seq<NoteState>, mid: seq<NoteState>, current: u8, held: seq<bool>, i: nat)
    requires 1 <= current <= 8 && |held| == NUM_KEYS_OF_MATRIX
  {
    |now| == NUM_NOTES && |mid| == NUM_NOTES &&
    forall n :: 0 <= n < NUM_NOTES ==> now[n] == KeyedAt(mid, current, held, i, n)
  }

  /** Whether the key loop changed a note while handling keys 8 up to `i`. */
  function KeyChangesBelow(mid: seq<NoteState>, current: u8, held: seq<bool>, i: nat): bool
    requires 1 <= current <= 8 && |held| == NUM_KEYS_OF_MATRIX && |mid| == NUM_NOTES
    requires 8 <= i <= NUM_KEYS_OF_MATRIX
  {
    i > 8 &&
    (KeyChangesBelow(mid, current, held, i - 1) ||
     (var n := IndexToNoteIndex(current, (i - 1) as u8); HeldStep(mid[n], held[i - 1]) != mid[n]))
  }

  /** All notes after the key loop. */
  function Keyed(mid: seq<NoteState>, current: u8, held: seq<bool>): (r: seq<NoteState>)
    requires 1 <= current <= 8 && |held| == NUM_KEYS_OF_MATRIX && |mid| == NUM_NOTES
    ensures |r| == NUM_NOTES
  {
    seq(NUM_NOTES, n requires 0 <= n < NUM_NOTES => KeyedAt(mid, current, held, NUM_KEYS_OF_MATRIX, n))
  }

  /** The notes after a whole `update` in octave `current`. */
  function UpdatedNotes(notes: seq<NoteState>, current: u8, held: seq<bool>): (r: seq<NoteState>)
    requires 1 <= current <= 8 && |held| == NUM_KEYS_OF_MATRIX && |notes| == NUM_NOTES
    ensures |r| == NUM_NOTES
  {
    Keyed(Cleared(notes, current), current, held)
  }

  /** What `update` does to each note: the note of a key takes one step by whether that key is
      held, the top C key's note (the next octave's C) is first deactivated, every other note
      of octaves 1..8 is deactivated, and C9 is left alone when no key plays it. */
  lemma UpdateNoteEffect(notes: seq<NoteState>, current: u8, held: seq<bool>, key: u8, n: nat)
    requires 1 <= current <= 8 && |held| == NUM_KEYS_OF_MATRIX && |notes| == NUM_NOTES
    requires n < NUM_NOTES
    ensures 8 <= key < 20 ==>
      var m := IndexToNoteIndex(current, key); UpdatedNotes(notes, current, held)[m] == HeldStep(notes[m], held[key])
    ensures var m := IndexToNoteIndex(current, 20);
      UpdatedNotes(notes, current, held)[m] ==
        HeldStep(if current < 8 then notes[m].Deactivate() else notes[m], held[20])
    ensures KeyOfNote(current, n).None? ==>
      UpdatedNotes(notes, current, held)[n] == if n < OCTAVE_NOTES then notes[n].Deactivate() else notes[n]
  {
    KeyOffsetInverse(key, 0);
  }

  /** A held top-C key does not reach Sustain below octave 8: the clearing loop first moves its
      note from Pressed to Release and the key loop then moves it back to Pressed. */
  lemma HeldTopCStaysPressed(notes: seq<NoteState>, held: seq<bool>)
    requires |held| == NUM_KEYS_OF_MATRIX && |notes| == NUM_NOTES
    requires notes[48] == Pressed && held[20]
    ensures UpdatedNotes(notes, 4, held)[48] == Pressed
  {
    UpdateNoteEffect(notes, 4, held, 20, 48);
  }

  lemma {:induction false} ClearChangeWitness(notes: seq<NoteState>, current: nat, k: nat, n: nat)
    requires k <= OCTAVE_NOTES <= |notes| && n < k
    requires n / 12 + 1 != current && notes[n].Deactivate() != notes[n]
    ensures ClearChangesBelow(notes, current, k)
  {
    if n < k - 1 {
      ClearChangeWitness(notes, current, k - 1, n);
    }
  }

  lemma {:induction false} KeyChangeWitness(mid: seq<NoteState>, current: u8, held: seq<bool>, i: nat, key: u8)
    requires 1 <= current <= 8 && |held| == NUM_KEYS_OF_MATRIX && |mid| == NUM_NOTES
    requires 8 <= key && (key as nat) < i <= NUM_KEYS_OF_MATRIX
    requires var n := IndexToNoteIndex(current, key); HeldStep(mid[n], held[key]) != mid[n]
    ensures KeyChangesBelow(mid, current, held, i)
  {
    if (key as nat) < i - 1 {
      KeyChangeWitness(mid, current, held, i - 1, key);
    }
  }

  /** Every net change of an `update` is recorded: a changed octave or a changed note implies
      that one of the three loops wrote. */
  lemma NetChangeIsRecorded(octave: u8, notes: seq<NoteState>, keys: KeyboardMatrix.KeyboardState)
    requires keys.WellFormed() && |notes| == NUM_NOTES
    requires 1 <= OctaveAfter(octave, keys.pressed, OCTAVE_KEYS) <= 8
    ensures var current := OctaveAfter(octave, keys.pressed, OCTAVE_KEYS);
      current != octave || UpdatedNotes(notes, current, keys.state) != notes ==>
        OctaveWrites(octave, keys.pressed, OCTAVE_KEYS) ||
        ClearChangesBelow(notes, current, OCTAVE_NOTES) ||
        KeyChangesBelow(Cleared(notes, current), current, keys.state, NUM_KEYS_OF_MATRIX)
  {
    var current := OctaveAfter(octave, keys.pressed, OCTAVE_KEYS);
    OctaveSelection(octave, keys.pressed, OCTAVE_KEYS);
    var after := UpdatedNotes(notes, current, keys.state);
    var mid := Cleared(notes, current);
    if after != notes {
      var n :| 0 <= n < NUM_NOTES && after[n] != notes[n];
      if mid[n] != notes[n] {
        ClearChangeWitness(notes, current, OCTAVE_NOTES, n);
      } else {
        var key := KeyOfNote(current, n).value;
        KeyChangeWitness(mid, current, keys.state, NUM_KEYS_OF_MATRIX, key);
      }
    }
  }

  /** `dirty` records writes, not net change: the octave can be written and restored within
      one scan while no note moves. */
  lemma DirtyWithoutNetChange()
    ensures var keys := KeyboardMatrix.Default().(pressed := seq(NUM_KEYS_OF_MATRIX, k => k == 2 || k == 5));
      var notes := seq(NUM_NOTES, _ => Off);
      OctaveAfter(6, keys.pressed, OCTAVE_KEYS) == 6 &&
      UpdatedNotes(notes, 6, keys.state) == notes &&
      OctaveWrites(6, keys.pressed, OCTAVE_KEYS)
  {
    OctaveRewrittenToSameValue();
    var keys := KeyboardMatrix.Default().(pressed := seq(NUM_KEYS_OF_MATRIX, k => k == 2 || k == 5));
    var notes := seq(NUM_NOTES, _ => Off);
    forall n | 0 <= n < NUM_NOTES
      ensures UpdatedNotes(notes, 6, keys.state)[n] == notes[n]
    {
    }
  }

  // ---------------------------------------------------------------------------------------
  // Loop bookkeeping for `Update`.

  lemma ClearedUpToStep(now: seq<NoteState>, before: seq<NoteState>, current: nat, k: nat)
    requires ClearedUpTo(now, before, current, k)
    requires k < OCTAVE_NOTES && k / 12 + 1 != current
    ensures now[k] == before[k]
    ensures ClearedUpTo(now[k := now[k].Deactivate()], before, current, k + 1)
  {
  }

  lemma ClearedUpToSkip(now: seq<NoteState>, before: seq<NoteState>, current: nat)
    requires 1 <= current <= 8
    requires ClearedUpTo(now, before, current, (current - 1) * 12)
    ensures ClearedUpTo(now, before, current, current * 12)
  {
    forall n | 0 <= n < NUM_NOTES
      ensures now[n] == ClearedAt(before, current, current * 12, n)
    {
      if (current - 1) * 12 <= n < current * 12 {
        assert n / 12 == current - 1;
      }
    }
  }

  lemma {:induction false} ClearChangesSkip(notes: seq<NoteState>, current: nat, k: nat)
    requires 1 <= current <= 8 && |notes| == NUM_NOTES
    requires (current - 1) * 12 <= k <= current * 12
    ensures ClearChangesBelow(notes, current, k) == ClearChangesBelow(notes, current, (current - 1) * 12)
  {
    if k > (current - 1) * 12 {
      assert (k - 1) / 12 == current - 1;
      ClearChangesSkip(notes, current, k - 1);
    }
  }

  lemma KeyedUpToStep(now: seq<NoteState>, mid: seq<NoteState>, current: u8, held: seq<bool>, i: nat)
    requires 1 <= current <= 8 && |held| == NUM_KEYS_OF_MATRIX
    requires KeyedUpTo(now, mid, current, held, i) && 8 <= i < NUM_KEYS_OF_MATRIX
    ensures var n := IndexToNoteIndex(current, i as u8);
      now[n] == mid[n] &&
      KeyedUpTo(now[n := HeldStep(now[n], held[i])], mid, current, held, i + 1)
  {
    var n := IndexToNoteIndex(current, i as u8);
    KeyOffsetInverse(i as u8, 0);
    assert KeyOfNote(current, n as nat) == Some(i as u8);
    forall m | 0 <= m < NUM_NOTES && m != n as nat
      ensures KeyedAt(mid, current, held, i + 1, m) == KeyedAt(mid, current, held, i, m)
    {
    }
  }

  /** `SynthState` together with its `SynthEngine` wrapper. */
  class SynthEngine {
    var octave: u8
    const noteIndexState: array<NoteState>
    var dirty: bool

    ghost predicate Valid()
      reads this
    {
      noteIndexState.Length == NUM_NOTES
    }

    /** A new engine: octave 4, every note off, nothing to report. */
    constructor ()
      ensures Valid() && fresh(noteIndexState)
      ensures octave == 4 && !dirty
      ensures noteIndexState[..] == seq(NUM_NOTES, _ => Off)
    {
      octave := 4;
      noteIndexState := new NoteState[NUM_NOTES](_ => Off);
      dirty := false;
    }

    /** One held step of note `noteIndex`; reports whether the stored state changed. */
    method ActivateNoteIndex(noteIndex: u8) returns (changed: bool)
      requires Valid() && (noteIndex as nat) < NUM_NOTES
      modifies this, noteIndexState
      ensures Valid() && octave == old(octave)
      ensures changed <==> old(noteIndexState[noteIndex]).Activate() != old(noteIndexState[noteIndex])
      ensures noteIndexState[..] == old(noteIndexState[..])[noteIndex := old(noteIndexState[noteIndex]).Activate()]
      ensures dirty == (old(dirty) || changed)
    {
      var newState := noteIndexState[noteIndex].Activate();
      if noteIndexState[noteIndex] != newState {
        noteIndexState[noteIndex] := newState;
        dirty := true;
        changed := true;
      } else {
        changed := false;
      }
    }

    /** One released step of note `noteIndex`; reports whether the stored state changed. */
    method DeactivateNoteIndex(noteIndex: u8) returns (changed: bool)
      requires Valid() && (noteIndex as nat) < NUM_NOTES
      modifies this, noteIndexState
      ensures Valid() && octave == old(octave)
      ensures changed <==> old(noteIndexState[noteIndex]).Deactivate() != old(noteIndexState[noteIndex])
      ensures noteIndexState[..] == old(noteIndexState[..])[noteIndex := old(noteIndexState[noteIndex]).Deactivate()]
      ensures dirty == (old(dirty) || changed)
    {
      var newState := noteIndexState[noteIndex].Deactivate();
      if noteIndexState[noteIndex] != newState {
        noteIndexState[noteIndex] := newState;
        dirty := true;
        changed := true;
      } else {
        changed := false;
      }
    }

    /** `set_octave`: selects an octave and reports the change; notes are untouched. */
    method SetOctave(newOctave: u8)
      requires Valid()
      modifies this
      ensures Valid() && octave == newOctave && dirty
      ensures noteIndexState[..] == old(noteIndexState[..])
    {
      octave := newOctave;
      dirty := true;
    }

    /** `update`: one scan of the keyboard. The octave follows the highest newly pressed octave
        key; notes of other octaves are released one step; each note key moves its note one
        step by whether it is held; `dirty` records whether any of this wrote. */
    method Update(keys: KeyboardMatrix.KeyboardState)
      requires Valid() && keys.WellFormed()
      requires 1 <= OctaveAfter(octave, keys.pressed, OCTAVE_KEYS) <= 8
      modifies this, noteIndexState
      ensures Valid()
      ensures octave == OctaveAfter(old(octave), keys.pressed, OCTAVE_KEYS)
      ensures noteIndexState[..] == UpdatedNotes(old(noteIndexState[..]), octave, keys.state)
      ensures dirty == (OctaveWrites(old(octave), keys.pressed, OCTAVE_KEYS) ||
                        ClearChangesBelow(old(noteIndexState[..]), octave, OCTAVE_NOTES) ||
                        KeyChangesBelow(Cleared(old(noteIndexState[..]), octave), octave, keys.state,
                                        NUM_KEYS_OF_MATRIX))
    {
      SelectOctave(keys);
      ReleaseOtherOctaves();
      StepNoteKeys(keys);
    }

    /** The octave-key loop of `update`: the highest pressed octave key whose octave is not
        the current one selects it. */
    method SelectOctave(keys: KeyboardMatrix.KeyboardState)
      requires Valid() && keys.WellFormed()
      modifies this
      ensures Valid() && noteIndexState[..] == old(noteIndexState[..])
      ensures octave == OctaveAfter(old(octave), keys.pressed, OCTAVE_KEYS)
      ensures dirty == OctaveWrites(old(octave), keys.pressed, OCTAVE_KEYS)
    {
      ghost var startOctave := octave;
      dirty := false;
      var i := 0;
      while i < OCTAVE_KEYS
        invariant 0 <= i <= OCTAVE_KEYS
        invariant octave == OctaveAfter(startOctave, keys.pressed, i)
        invariant dirty == OctaveWrites(startOctave, keys.pressed, i)
        invariant noteIndexState[..] == old(noteIndexState[..])
      {
        if keys.pressed[i] && octave != i + 1 {
          octave := i + 1;
          dirty := true;
        }
        i := i + 1;
      }
    }

    /** The release loop of `update`: every note of every other octave takes one released step. */
    method ReleaseOtherOctaves()
      requires Valid() && 1 <= octave <= 8
      modifies this, noteIndexState
      ensures Valid() && octave == old(octave)
      ensures noteIndexState[..] == Cleared(old(noteIndexState[..]), octave)
      ensures dirty == (old(dirty) || ClearChangesBelow(old(noteIndexState[..]), octave, OCTAVE_NOTES))
    {
      ghost var before := noteIndexState[..];
      ghost var current := octave;
      ghost var wrote := dirty;
      assert ClearedUpTo(noteIndexState[..], before, current, 0);
      var clearOctave: u8 := 1;
      while clearOctave < 9
        invariant 1 <= clearOctave <= 9
        invariant Valid() && octave == current
        invariant ClearedUpTo(noteIndexState[..], before, current, (clearOctave - 1) * 12)
        invariant dirty == (wrote || ClearChangesBelow(before, current, (clearOctave - 1) * 12))
      {
        if clearOctave != octave {
          ReleaseOctave(clearOctave, before, wrote);
        } else {
          ClearedUpToSkip(noteIndexState[..], before, current);
          ClearChangesSkip(before, current, current * 12);
        }
        clearOctave := clearOctave + 1;
      }
      assert noteIndexState[..] == Cleared(before, current);
    }

    /** One other octave's turn of the release loop: its twelve notes take a released step. */
    method ReleaseOctave(clearOctave: u8, ghost before: seq<NoteState>, ghost wrote: bool)
      requires Valid() && 1 <= clearOctave <= 8 && clearOctave != octave
      requires ClearedUpTo(noteIndexState[..], before, octave, (clearOctave - 1) * 12)
      requires dirty == (wrote || ClearChangesBelow(before, octave, (clearOctave - 1) * 12))
      modifies this, noteIndexState
      ensures Valid() && octave == old(octave)
      ensures ClearedUpTo(noteIndexState[..], before, octave, clearOctave as nat * 12)
      ensures dirty == (wrote || ClearChangesBelow(before, octave, clearOctave as nat * 12))
    {
      var offset: u8 := 0;
      while offset < 12
        invariant 0 <= offset <= 12
        invariant Valid() && octave == old(octave)
        invariant ClearedUpTo(noteIndexState[..], before, octave, (clearOctave - 1) * 12 + offset)
        invariant dirty == (wrote || ClearChangesBelow(before, octave, (clearOctave - 1) * 12 + offset))
      {
        var noteIndex := OctaveNoteOffsetToNoteIndex(clearOctave, offset);
        ClearedUpToStep(noteIndexState[..], before, octave, noteIndex as nat);
        var changed := DeactivateNoteIndex(noteIndex);
        dirty := changed || dirty;
        offset := offset + 1;
      }
    }

    /** The note-key loop of `update`: each note key of the current octave moves its note one
        step by whether it is held. */
    method StepNoteKeys(keys: KeyboardMatrix.KeyboardState)
      requires Valid() && keys.WellFormed() && 1 <= octave <= 8
      modifies this, noteIndexState
      ensures Valid() && octave == old(octave)
      ensures noteIndexState[..] == Keyed(old(noteIndexState[..]), octave, keys.state)
      ensures dirty == (old(dirty) || KeyChangesBelow(old(noteIndexState[..]), octave, keys.state, NUM_KEYS_OF_MATRIX))
    {
      ghost var mid := noteIndexState[..];
      ghost var wrote := dirty;
      var key: u8 := 8;
      while key < 21
        invariant 8 <= key <= 21
        invariant Valid() && octave == old(octave)
        invariant KeyedUpTo(noteIndexState[..], mid, octave, keys.state, key as nat)
        invariant dirty == (wrote || KeyChangesBelow(mid, octave, keys.state, key as nat))
      {
        StepNoteKey(keys, key, mid, wrote);
        key := key + 1;
      }
      assert noteIndexState[..] == Keyed(mid, octave, keys.state);
    }

    /** One turn of the note-key loop: key `key`'s note steps by whether the key is held. */
    method StepNoteKey(keys: KeyboardMatrix.KeyboardState, key: u8, ghost mid: seq<NoteState>, ghost wrote: bool)
      requires Valid() && keys.WellFormed() && 1 <= octave <= 8 && 8 <= key < 21
      requires KeyedUpTo(noteIndexState[..], mid, octave, keys.state, key as nat)
      requires dirty == (wrote || KeyChangesBelow(mid, octave, keys.state, key as nat))
      modifies this, noteIndexState
      ensures Valid() && octave == old(octave)
      ensures KeyedUpTo(noteIndexState[..], mid, octave, keys.state, key as nat + 1)
      ensures dirty == (wrote || KeyChangesBelow(mid, octave, keys.state, key as nat + 1))
    {
      var noteIndex := IndexToNoteIndex(octave, key);
      KeyedUpToStep(noteIndexState[..], mid, octave, keys.state, key as nat);
      var changed;
      if keys.state[key] {
        changed := ActivateNoteIndex(noteIndex);
      } else {
        changed := DeactivateNoteIndex(noteIndex);
      }
      dirty := changed || dirty;
    }
  }
}
