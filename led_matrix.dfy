/** The charlieplexed LED matrix of the encoder board (led_matrix/src/lib.rs): 20 LEDs on five
    pins. Each LED has a brightness byte; `step` moves the driven pin A, B, C, D, E and back to
    A, and every return to A moves on to the next of four brightness cycles. */
module LedMatrix {
  import opened Prelude

  datatype MatrixPin = PinA | PinB | PinC | PinD | PinE

  /** One brightness cycle: how many ticks it lasts and the brightness threshold it checks. */
  datatype Cycle = Cycle(duration: u8, value: u8)

  const NUM_LEDS: nat := 20
  const NUM_PINS: nat := 5

  const CYCLES: seq<Cycle> := [Cycle(1, 10), Cycle(2, 40), Cycle(8, 128), Cycle(16, 240)]

  /** The (anode, cathode) pins of each LED, as the source lists them. */
  const LED_PIN_DRIVES_AS_WRITTEN: seq<(MatrixPin, MatrixPin)> := [
    (PinA, PinB), (PinA, PinC), (PinA, PinD), (PinA, PinE),
    (PinB, PinA), (PinB, PinC), (PinB, PinD), (PinB, PinE),
    (PinC, PinA), (PinC, PinB), (PinC, PinD), (PinC, PinE),
    (PinD, PinA), (PinD, PinB), (PinD, PinC), (PinD, PinD),
    (PinE, PinA), (PinE, PinB), (PinE, PinC), (PinE, PinD)
  ]

  /** The listed table drives LED 15 from pin D to pin D: no current can flow, so that LED can
      never light, and the pair (D, E) belongs to no LED. */
  lemma LedPinDrivesAsWrittenShortsLed15()
    ensures LED_PIN_DRIVES_AS_WRITTEN[15].0 == LED_PIN_DRIVES_AS_WRITTEN[15].1
    ensures (PinD, PinE) !in LED_PIN_DRIVES_AS_WRITTEN
  {
    assert (PinD, PinE) != LED_PIN_DRIVES_AS_WRITTEN[15];
  }

  /** The table as evidently intended: the fourth row follows the pattern of the others. */
  const LED_PIN_DRIVES: seq<(MatrixPin, MatrixPin)> := LED_PIN_DRIVES_AS_WRITTEN[15 := (PinD, PinE)]

  /** Each LED of the intended table sits between two different pins, and no two LEDs share a
      pin pair: the 20 LEDs use the 20 ordered pairs of distinct pins exactly once. */
  lemma LedPinDrivesDistinct()
    ensures |LED_PIN_DRIVES| == NUM_LEDS
    ensures forall i :: 0 <= i < NUM_LEDS ==> LED_PIN_DRIVES[i].0 != LED_PIN_DRIVES[i].1
    ensures forall i, j :: 0 <= i < j < NUM_LEDS ==> LED_PIN_DRIVES[i] != LED_PIN_DRIVES[j]
    ensures forall p, q :: p != q ==> (p, q) in LED_PIN_DRIVES
  {
    forall i | 0 <= i < NUM_LEDS
      ensures LED_PIN_DRIVES[i].0 != LED_PIN_DRIVES[i].1
    {
      var _ := Pair(i);
    }
    forall i, j | 0 <= i < j < NUM_LEDS
      ensures LED_PIN_DRIVES[i] != LED_PIN_DRIVES[j]
    {
      PairDistinct(i, j);
    }
    forall p: MatrixPin, q: MatrixPin | p != q
      ensures (p, q) in LED_PIN_DRIVES
    {
      var a, c := PinIndex(p), PinIndex(q);
      var i := 4 * a + (if c < a then c else c - 1);
      var r := Pair(i);
      assert PinOf(PinIndex(r.0)) == p && PinOf(PinIndex(r.1)) == q;
    }
  }

  /** The pins of LED `i` of the intended table, computed: row `i / 4` is the anode, and the
      cathode is the `i % 4`-th of the other pins. */
  function Pair(i: nat): (r: (MatrixPin, MatrixPin))
    requires i < NUM_LEDS
    ensures r == LED_PIN_DRIVES[i]
    ensures PinIndex(r.0) == i / 4
    ensures PinIndex(r.1) == if i % 4 < i / 4 then i % 4 else i % 4 + 1
    ensures r.0 != r.1
  {
    var a := i / 4;
    var b := if i % 4 < a then i % 4 else i % 4 + 1;
    (PinOf(a), PinOf(b))
  }

  lemma PairDistinct(i: nat, j: nat)
    requires i < j < NUM_LEDS
    ensures LED_PIN_DRIVES[i] != LED_PIN_DRIVES[j]
  {
    var x, y := Pair(i), Pair(j);
    if i / 4 == j / 4 {
      assert i % 4 != j % 4;
      assert PinIndex(x.1) != PinIndex(y.1);
    } else {
      assert PinIndex(x.0) != PinIndex(y.0);
    }
  }

  /** Position of a pin in the driving order. */
  function PinIndex(p: MatrixPin): (n: nat)
    ensures n < NUM_PINS && PinOf(n) == p
  {
    match p
    case PinA => 0
    case PinB => 1
    case PinC => 2
    case PinD => 3
    case PinE => 4
  }

  function PinOf(n: nat): (p: MatrixPin)
    requires n < NUM_PINS
  {
    if n == 0 then PinA else if n == 1 then PinB else if n == 2 then PinC else if n == 3 then PinD else PinE
  }

  /** `step`: the next pin, and the cycle, which moves on (modulo the number of cycles) each
      time the pin returns to A. */
  function NextDrive(pin: MatrixPin, cycle: u8): (r: (MatrixPin, u8))
    requires (cycle as nat) < |CYCLES|
    ensures (r.1 as nat) < |CYCLES|
    ensures PinIndex(r.0) == (PinIndex(pin) + 1) % NUM_PINS
    ensures r.1 as nat == if pin == PinE then (cycle as nat + 1) % |CYCLES| else cycle as nat
  {
    match pin
    case PinA => (PinB, cycle)
    case PinB => (PinC, cycle)
    case PinC => (PinD, cycle)
    case PinD => (PinE, cycle)
    case PinE => (PinA, if cycle + 1 == |CYCLES| as u8 then 0 else cycle + 1)
  }

  /** `n` calls of `step`. */
  function Steps(pin: MatrixPin, cycle: u8, n: nat): (r: (MatrixPin, u8))
    requires (cycle as nat) < |CYCLES|
    ensures (r.1 as nat) < |CYCLES|
  {
    if n == 0 then (pin, cycle) else var s := Steps(pin, cycle, n - 1); NextDrive(s.0, s.1)
  }

  /** One step from the position reached after `x` steps is the position after `x + 1`. */
  lemma NextDriveAdvances(pin: MatrixPin, cycle: u8, start: nat, x: nat)
    requires (cycle as nat) < |CYCLES| && start < |CYCLES|
    requires PinIndex(pin) == x % NUM_PINS && cycle as nat == (start + x / NUM_PINS) % |CYCLES|
    ensures PinIndex(NextDrive(pin, cycle).0) == (x + 1) % NUM_PINS
    ensures NextDrive(pin, cycle).1 as nat == (start + (x + 1) / NUM_PINS) % |CYCLES|
  {
    if x % NUM_PINS < 4 {
      assert (x + 1) / NUM_PINS == x / NUM_PINS;
    } else {
      assert (x + 1) / NUM_PINS == x / NUM_PINS + 1;
    }
  }

  /** After `n` steps the pin has advanced `n` places round the five pins, and the cycle has
      advanced once per completed round. */
  lemma {:induction false} StepsClosedForm(pin: MatrixPin, cycle: u8, n: nat)
    requires (cycle as nat) < |CYCLES|
    ensures PinIndex(Steps(pin, cycle, n).0) == (PinIndex(pin) + n) % NUM_PINS
    ensures Steps(pin, cycle, n).1 as nat == (cycle as nat + (PinIndex(pin) + n) / NUM_PINS) % |CYCLES|
  {
    if n > 0 {
      StepsClosedForm(pin, cycle, n - 1);
      var s := Steps(pin, cycle, n - 1);
      NextDriveAdvances(s.0, s.1, cycle as nat, PinIndex(pin) + n - 1);
    }
  }

  /** `k` full rounds of five steps return to the same pin, `k` cycles on: twenty steps (four
      rounds) change nothing. */
  lemma StepsRounds(pin: MatrixPin, cycle: u8, k: nat)
    requires (cycle as nat) < |CYCLES|
    ensures Steps(pin, cycle, NUM_PINS * k) == (pin, ((cycle as nat + k) % |CYCLES|) as u8)
  {
    var i := PinIndex(pin);
    StepsClosedForm(pin, cycle, NUM_PINS * k);
    assert i + NUM_PINS * k == NUM_PINS * k + i;
    assert (i + NUM_PINS * k) % NUM_PINS == i && (i + NUM_PINS * k) / NUM_PINS == k;
    var s := Steps(pin, cycle, NUM_PINS * k);
    assert PinOf(PinIndex(s.0)) == s.0;
  }

  class LedMatrixDefinition {
    const pinState: array<u8>
    var drivingCycle: u8
    var drivingPin: MatrixPin

    ghost predicate Valid()
      reads this
    {
      pinState.Length == NUM_LEDS && (drivingCycle as nat) < |CYCLES|
    }

    /** `new`: every LED off, driving pin A in the first cycle. */
    constructor()
      ensures Valid() && fresh(pinState)
      ensures pinState[..] == seq(NUM_LEDS, _ => 0)
      ensures drivingCycle == 0 && drivingPin == PinA
    {
      pinState := new u8[NUM_LEDS](_ => 0);
      drivingCycle := 0;
      drivingPin := PinA;
    }

    /** `set_value`: the brightness of one LED; a number past the last LED is ignored. */
    method SetValue(led: u8, value: u8)
      requires Valid()
      modifies pinState
      ensures (led as nat) < NUM_LEDS ==> pinState[..] == old(pinState[..])[led := value]
      ensures (led as nat) >= NUM_LEDS ==> pinState[..] == old(pinState[..])
    {
      if led >= NUM_LEDS as u8 {
        return;
      }
      pinState[led] := value;
    }

    /** `clear`: every LED off. */
    method Clear()
      requires Valid()
      modifies pinState
      ensures pinState[..] == seq(NUM_LEDS, _ => 0)
    {
      var i := 0;
      while i < NUM_LEDS
        invariant 0 <= i <= NUM_LEDS
        invariant forall j :: 0 <= j < i ==> pinState[j] == 0
      {
        pinState[i] := 0;
        i := i + 1;
      }
    }

    /** `step`: drive the next pin; the brightness bytes are not touched. */
    method Step()
      requires Valid()
      modifies this
      ensures Valid()
      ensures (drivingPin, drivingCycle) == NextDrive(old(drivingPin), old(drivingCycle))
    {
      match drivingPin {
        case PinA => drivingPin := PinB;
        case PinB => drivingPin := PinC;
        case PinC => drivingPin := PinD;
        case PinD => drivingPin := PinE;
        case PinE =>
          drivingCycle := drivingCycle + 1;
          if drivingCycle == |CYCLES| as u8 {
            drivingCycle := 0;
          }
          drivingPin := PinA;
      }
    }
  }

  /** The crate's tests run on the object: five steps after `new` drive pin A in cycle 1, twenty
      drive pin A in cycle 0. */
  method StepFromNew(n: nat) returns (pin: MatrixPin, cycle: u8)
    ensures (pin, cycle) == Steps(PinA, 0, n)
    ensures n == 5 ==> pin == PinA && cycle == 1
    ensures n == 20 ==> pin == PinA && cycle == 0
  {
    var matrix := new LedMatrixDefinition();
    var i := 0;
    while i < n
      invariant 0 <= i <= n && matrix.Valid()
      invariant (matrix.drivingPin, matrix.drivingCycle) == Steps(PinA, 0, i)
    {
      matrix.Step();
      i := i + 1;
    }
    pin, cycle := matrix.drivingPin, matrix.drivingCycle;
    StepsFromNew(n);
  }

  /** Five steps from A in cycle 0 reach A in cycle 1; twenty come back to the start. */
  lemma StepsFromNew(n: nat)
    ensures n == 5 ==> Steps(PinA, 0, n) == (PinA, 1)
    ensures n == 20 ==> Steps(PinA, 0, n) == (PinA, 0)
  {
    if n == 5 || n == 20 {
      StepsClosedForm(PinA, 0, n);
      var s := Steps(PinA, 0, n);
      assert PinIndex(s.0) == 0 by {
        assert (PinIndex(PinA) + n) % NUM_PINS == 0;
      }
      assert s.1 as nat == (n / NUM_PINS) % |CYCLES|;
      assert PinOf(PinIndex(s.0)) == s.0;
    }
  }
}
