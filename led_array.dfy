/** The charlieplexed LED array of the encoder prototype (led_array.c): 20 LEDs on five port
    pins PA02..PA06. The array is driven one phase (one feeding pin) at a time; for each phase
    `signals` holds the output levels and `directions` the pins driven as outputs. An LED is
    lit by making its sinking pin an output during its phase, that is by setting its flag bit
    in `directions` of that phase.

    Port registers are 32-bit; the values written to them are returned instead (`Init` takes
    the old direction register and returns the new one, `Phase` returns its four writes). */
module LedArray {
  import opened Prelude

  const LED_PHASES: nat := 5
  const LED_ARRAY_COUNT: nat := 20

  /** Bit of each phase's pin on the port: A = PA02, B = PA03, C = PA06, D = PA05, E = PA04. */
  const LED_A_BIT: bv8 := 1 << 2
  const LED_B_BIT: bv8 := 1 << 3
  const LED_C_BIT: bv8 := 1 << 6
  const LED_D_BIT: bv8 := 1 << 5
  const LED_E_BIT: bv8 := 1 << 4

  /** The five LED pins of the port. */
  const LED_MASK: bv32 := 0x04 | 0x08 | 0x40 | 0x20 | 0x10

  /** The pin that feeds each phase. */
  const LED_PHASE_FEED: seq<bv8> := [LED_A_BIT, LED_B_BIT, LED_C_BIT, LED_D_BIT, LED_E_BIT]

  /** For each LED, its phase and the flag of its sinking pin. */
  const LED_PINS: seq<(nat, bv8)> := [
    (0, LED_B_BIT), (0, LED_C_BIT), (0, LED_D_BIT), (0, LED_E_BIT),
    (1, LED_A_BIT), (1, LED_C_BIT), (1, LED_D_BIT), (1, LED_E_BIT),
    (2, LED_A_BIT), (2, LED_B_BIT), (2, LED_D_BIT), (2, LED_E_BIT),
    (3, LED_A_BIT), (3, LED_B_BIT), (3, LED_C_BIT), (3, LED_E_BIT),
    (4, LED_A_BIT), (4, LED_B_BIT), (4, LED_C_BIT), (4, LED_D_BIT)
  ]

  /** Every LED's phase exists, its flag is the pin of another phase, and no two LEDs share a
      (phase, flag) pair: each LED owns one bit of one phase, never the feed bit. */
  lemma LedPinsWellFormed()
    ensures |LED_PINS| == LED_ARRAY_COUNT
    ensures forall p :: 0 <= p < LED_ARRAY_COUNT ==>
      LED_PINS[p].0 < LED_PHASES && LED_PINS[p].1 in LED_PHASE_FEED &&
      LED_PINS[p].1 & LED_PHASE_FEED[LED_PINS[p].0] == 0 && LED_PINS[p].1 != 0
    ensures forall p, q :: 0 <= p < q < LED_ARRAY_COUNT ==> LED_PINS[p] != LED_PINS[q]
  {
    forall p | 0 <= p < LED_ARRAY_COUNT
      ensures LED_PINS[p].0 < LED_PHASES && LED_PINS[p].1 in LED_PHASE_FEED &&
        LED_PINS[p].1 & LED_PHASE_FEED[LED_PINS[p].0] == 0 && LED_PINS[p].1 != 0
    {
      LedPinIsTable(p);
      FeedBitsDistinct(p / 4, Sink(p));
    }
    forall p, q | 0 <= p < q < LED_ARRAY_COUNT
      ensures LED_PINS[p] != LED_PINS[q]
    {
      LedPinIsTable(p);
      LedPinIsTable(q);
      if p / 4 == q / 4 {
        assert Sink(p) != Sink(q);
        FeedBitsDistinct(Sink(p), Sink(q));
      }
    }
  }

  /** The phase whose pin sinks LED `p`: row `p / 4` feeds, and the sink is the `p % 4`-th of the
      other pins. */
  function Sink(p: nat): (k: nat)
    requires p < LED_ARRAY_COUNT
    ensures k < LED_PHASES && k != p / 4
  {
    if p % 4 < p / 4 then p % 4 else p % 4 + 1
  }

  /** The table's entry for LED `p`, computed. */
  function LedPin(p: nat): (r: (nat, bv8))
    requires p < LED_ARRAY_COUNT
    ensures r.0 == p / 4 < LED_PHASES && r.1 == LED_PHASE_FEED[Sink(p)]
  {
    (p / 4, LED_PHASE_FEED[Sink(p)])
  }

  /** The table lists the computed entries. */
  lemma LedPinIsTable(p: nat)
    requires p < LED_ARRAY_COUNT
    ensures LED_PINS[p] == LedPin(p)
  {
  }

  /** The five feed bits are distinct single bits. */
  lemma FeedBitsDistinct(i: nat, j: nat)
    requires i < LED_PHASES && j < LED_PHASES
    ensures LED_PHASE_FEED[i] != 0
    ensures var f := LED_PHASE_FEED[i]; f == 0x04 || f == 0x08 || f == 0x10 || f == 0x20 || f == 0x40
    ensures i != j ==> LED_PHASE_FEED[i] & LED_PHASE_FEED[j] == 0
  {
  }

  /** Setting or clearing `flag` in `x` changes no other bit. */
  lemma FlagUpdate(x: bv8, flag: bv8, other: bv8, on: bool)
    requires flag != 0 && flag & other == 0
    requires flag == 0x04 || flag == 0x08 || flag == 0x10 || flag == 0x20 || flag == 0x40
    ensures var r := if on then x | flag else x & !flag;
      r & !flag == x & !flag && (r & flag != 0 <==> on) && r & other == x & other
  {
  }

  /** `led_array_set_led` on the `directions` table: set or clear the LED's flag in its phase
      (the table entry, as `LedPinIsTable` shows). */
  function SetLedDirections(directions: seq<bv8>, position: nat, value: u8): (r: seq<bv8>)
    requires |directions| == LED_PHASES && position < LED_ARRAY_COUNT
    ensures |r| == LED_PHASES
  {
    var (phase, flag) := LedPin(position);
    directions[phase := if value != 0 then directions[phase] | flag else directions[phase] & !flag]
  }

  /** Setting an LED turns its flag on (any nonzero value) or off (zero) and changes no other
      bit of no other phase; in particular no phase's feed bit. */
  lemma SetLedEffect(directions: seq<bv8>, position: nat, value: u8, k: nat)
    requires |directions| == LED_PHASES && position < LED_ARRAY_COUNT && k < LED_PHASES
    ensures var r := SetLedDirections(directions, position, value);
      var (phase, flag) := LedPin(position);
      (k != phase ==> r[k] == directions[k]) &&
      (k == phase ==> r[k] & !flag == directions[k] & !flag) &&
      (k == phase ==> (r[k] & flag != 0 <==> value != 0)) &&
      r[k] & LED_PHASE_FEED[k] == directions[k] & LED_PHASE_FEED[k]
  {
    var (phase, flag) := LedPin(position);
    if k == phase {
      FeedBitsDistinct(Sink(position), phase);
      FlagUpdate(directions[k], flag, LED_PHASE_FEED[k], value != 0);
    }
  }

  /** LED `p` is lit: its flag is set in its phase's directions. */
  predicate Lit(directions: seq<bv8>, p: nat)
    requires |directions| == LED_PHASES && p < LED_ARRAY_COUNT
  {
    directions[LedPin(p).0] & LedPin(p).1 != 0
  }

  /** `led_array_set_led` lights exactly the LED it names (any nonzero value) or puts it out
      (zero); every other LED keeps its state. */
  lemma SetLedLights(directions: seq<bv8>, position: nat, value: u8, p: nat)
    requires |directions| == LED_PHASES && position < LED_ARRAY_COUNT && p < LED_ARRAY_COUNT
    ensures var r := SetLedDirections(directions, position, value);
      (p == position ==> (Lit(r, p) <==> value != 0)) &&
      (p != position ==> (Lit(r, p) <==> Lit(directions, p)))
  {
    if p == position {
      SetLedLightsItself(directions, position, value);
    } else {
      SetLedLightsOthers(directions, position, value, p);
    }
  }

  lemma SetLedLightsItself(directions: seq<bv8>, position: nat, value: u8)
    requires |directions| == LED_PHASES && position < LED_ARRAY_COUNT
    ensures Lit(SetLedDirections(directions, position, value), position) <==> value != 0
  {
    var x := LedPin(position);
    SetLedEffect(directions, position, value, x.0);
  }

  lemma SetLedLightsOthers(directions: seq<bv8>, position: nat, value: u8, p: nat)
    requires |directions| == LED_PHASES && position < LED_ARRAY_COUNT && p < LED_ARRAY_COUNT
    requires p != position
    ensures Lit(SetLedDirections(directions, position, value), p) <==> Lit(directions, p)
  {
    FlagKept(directions, position, value, p);
  }

  /** Setting one LED keeps the flag of every other LED. */
  lemma FlagKept(directions: seq<bv8>, position: nat, value: u8, p: nat)
    requires |directions| == LED_PHASES && position < LED_ARRAY_COUNT && p < LED_ARRAY_COUNT
    requires p != position
    ensures var r := SetLedDirections(directions, position, value); var (phase, flag) := LedPin(p);
      r[phase] & flag == directions[phase] & flag
  {
    var x, y := LedPin(position), LedPin(p);
    if x.0 == y.0 {
      assert Sink(position) != Sink(p);
      FeedBitsDistinct(Sink(position), Sink(p));
      FlagUpdate(directions[y.0], x.1, y.1, value != 0);
    }
  }

  /** Repeating a call changes nothing more. */
  lemma SetLedIdempotent(directions: seq<bv8>, position: nat, value: u8)
    requires |directions| == LED_PHASES && position < LED_ARRAY_COUNT
    ensures SetLedDirections(SetLedDirections(directions, position, value), position, value) ==
            SetLedDirections(directions, position, value)
  {
  }

  /** The phase after `led_array_phase`. */
  function NextPhase(phase: u8): (r: u8)
    requires (phase as nat) < LED_PHASES
    ensures r as nat == (phase as nat + 1) % LED_PHASES
  {
    if phase + 1 >= LED_PHASES as u8 then 0 else phase + 1
  }

  /** Five phase steps bring the array back to the phase it started in. */
  lemma PhaseCycle(phase: u8)
    requires (phase as nat) < LED_PHASES
    ensures NextPhase(NextPhase(NextPhase(NextPhase(NextPhase(phase))))) == phase
  {
  }

  /** The four port writes of a phase step: release the old phase's outputs, then drive the
      new one's. */
  datatype PortWrites = PortWrites(outClr: bv8, dirClr: bv8, outSet: bv8, dirSet: bv8)

  /** `led_array_init`'s write of the direction register: the LED pins become the outputs of
      phase 0 and the other pins keep their direction. */
  function InitPortDir(portDir: bv32): (r: bv32)
    ensures r & !LED_MASK == portDir & !LED_MASK
    ensures r & LED_MASK == LED_A_BIT as bv32
  {
    (portDir & !LED_MASK) | LED_A_BIT as bv32
  }

  class LedArrayDriver {
    const signals: array<bv8>
    const directions: array<bv8>
    var phase: u8

    ghost predicate Valid()
      reads this
    {
      signals.Length == LED_PHASES && directions.Length == LED_PHASES && (phase as nat) < LED_PHASES &&
      signals != directions
    }

    /** The zero-initialised globals. */
    constructor()
      ensures Valid() && fresh(signals) && fresh(directions)
      ensures phase == 0
    {
      signals := new bv8[LED_PHASES](_ => 0);
      directions := new bv8[LED_PHASES](_ => 0);
      phase := 0;
    }

    /** `led_array_init`: every phase feeds its own pin and drives only it; back to phase 0.
        Returns the new value of the port's direction register. */
    method Init(portDir: bv32) returns (newPortDir: bv32)
      requires Valid()
      modifies this, signals, directions
      ensures Valid()
      ensures signals[..] == LED_PHASE_FEED && directions[..] == LED_PHASE_FEED && phase == 0
      ensures newPortDir == InitPortDir(portDir)
    {
      var i := 0;
      while i < LED_PHASES
        invariant 0 <= i <= LED_PHASES
        invariant signals[..i] == LED_PHASE_FEED[..i] && directions[..i] == LED_PHASE_FEED[..i]
      {
        signals[i] := LED_PHASE_FEED[i];
        directions[i] := LED_PHASE_FEED[i];
        i := i + 1;
      }
      phase := 0;
      newPortDir := (portDir & !LED_MASK) | directions[phase] as bv32;
    }

    /** `led_array_phase`: stop driving the current phase, move to the next, drive it. */
    method Phase() returns (writes: PortWrites)
      requires Valid()
      modifies this
      ensures Valid()
      ensures phase == NextPhase(old(phase))
      ensures writes == PortWrites(signals[old(phase)], directions[old(phase)], signals[phase], directions[phase])
    {
      var outClr, dirClr := signals[phase], directions[phase];
      phase := phase + 1;
      if phase >= LED_PHASES as u8 {
        phase := 0;
      }
      writes := PortWrites(outClr, dirClr, signals[phase], directions[phase]);
    }

    /** `led_array_set_led`. The source indexes its table without a bound check, so a position
        past the last LED is excluded. */
    method SetLed(position: u8, value: u8)
      requires Valid() && (position as nat) < LED_ARRAY_COUNT
      modifies directions
      ensures directions[..] == SetLedDirections(old(directions[..]), position as nat, value)
    {
      LedPinIsTable(position as nat);
      var entry := LED_PINS[position];
      var phase, flag := entry.0, entry.1;
      ghost var before := directions[..];
      if value != 0 {
        directions[phase] := directions[phase] | flag;
      } else {
        directions[phase] := directions[phase] & !flag;
      }
      assert directions[..] == before[phase := directions[phase]];
    }
  }
}
