/** The animation controller of the encoder prototype (controller.c). In normal mode (mode 0)
    the controller runs one of three animations on the 20 LEDs of the ring, advancing it once
    the tick counter times the speed reaches 100000; turning the encoder changes the speed. In
    mode-adjustment mode (mode 1) turning the encoder picks the animation and the LED of that
    number is lit. A click of the encoder switch, or command 1 on the bus, switches mode;
    command 0 feeds a 32-bit value to the current mode as if the encoder had been turned.

    The LED array is external to the controller: every `led_array_set_led` call is returned,
    in order, as a `LedCall`, and `Frame` gives the LEDs those calls leave. */
module Controller {
  import opened Prelude
  import EncoderComms
  import Encoder
  import LedArray

  const LED_ARRAY_COUNT: nat := 20
  const ANIMATION_TYPES: nat := 3
  /** The number of LEDs each animation lights at half brightness after the focused one. */
  const TAIL: nat := 2
  /** Counter times speed at which normal mode advances the animation. */
  const ANIMATION_THRESHOLD: nat := 100000

  const FULL: u8 := 0xFF
  const HALF: u8 := 127
  const DIM: u8 := 0x20

  /** One call of `led_array_set_led`. */
  datatype LedCall = SetLed(position: u8, value: u8)

  /** The controller's statics `mode`, `led_focused`, `type`, `speed`, `counter` and
      `led_sweep`. */
  datatype Ctl = Ctl(mode: u8, ledFocused: i8, animationType: i8, speed: i16, counter: u32, ledSweep: i8)

  const INITIAL: Ctl := Ctl(0, 0, 0, 1, 0, 0)

  /** What the controller keeps: a focused LED of the ring, an animation that exists and a
      sweep short of its end. */
  predicate WellFormed(c: Ctl)
  {
    0 <= c.ledFocused < LED_ARRAY_COUNT as i8 && 0 <= c.animationType < ANIMATION_TYPES as i8 &&
    0 <= c.ledSweep < 2 * LED_ARRAY_COUNT as i8
  }

  /** Every call names an LED of the ring. */
  predicate OnRing(calls: seq<LedCall>)
  {
    forall i :: 0 <= i < |calls| ==> (calls[i].position as nat) < LED_ARRAY_COUNT
  }

  // ----- the LEDs a list of calls leaves -----

  /** One call of `led_array_set_led` on the LEDs; a position past the end changes nothing. */
  function Apply(leds: seq<u8>, call: LedCall): (r: seq<u8>)
    ensures |r| == |leds|
    ensures (call.position as nat) < |leds| ==> r[call.position] == call.value
    ensures forall p :: 0 <= p < |leds| && p != call.position as nat ==> r[p] == leds[p]
  {
    if (call.position as nat) < |leds| then leds[call.position := call.value] else leds
  }

  /** The brightness of each LED after `calls`, starting from `leds`. */
  function Frame(leds: seq<u8>, calls: seq<LedCall>): (r: seq<u8>)
    ensures |r| == |leds|
  {
    if calls == [] then leds else Apply(Frame(leds, calls[..|calls| - 1]), calls[|calls| - 1])
  }

  /** Calls made one list after another act in that order. */
  lemma {:induction false} FrameAppend(leds: seq<u8>, a: seq<LedCall>, b: seq<LedCall>)
    ensures Frame(leds, a + b) == Frame(Frame(leds, a), b)
  {
    if b == [] {
      assert a + b == a;
    } else {
      assert (a + b)[..|a + b| - 1] == a + b[..|b| - 1];
      assert (a + b)[|a + b| - 1] == b[|b| - 1];
      FrameAppend(leds, a, b[..|b| - 1]);
    }
  }

  /** One more call acts on what the calls before it left. */
  lemma FrameSnoc(leds: seq<u8>, calls: seq<LedCall>, call: LedCall)
    ensures Frame(leds, calls + [call]) == Apply(Frame(leds, calls), call)
  {
    assert (calls + [call])[..|calls|] == calls;
  }

  /** Two calls, then three, one after the other. */
  lemma FrameShort(leds: seq<u8>, calls: seq<LedCall>)
    requires 2 <= |calls| <= 3
    ensures |calls| == 2 ==> Frame(leds, calls) == Apply(Apply(leds, calls[0]), calls[1])
    ensures |calls| == 3 ==> Frame(leds, calls) == Apply(Apply(Apply(leds, calls[0]), calls[1]), calls[2])
  {
    FrameSnoc(leds, [], calls[0]);
    assert [] + [calls[0]] == [calls[0]];
    FrameSnoc(leds, [calls[0]], calls[1]);
    if |calls| == 2 {
      assert calls == [calls[0]] + [calls[1]];
    } else {
      FrameSnoc(leds, [calls[0], calls[1]], calls[2]);
      assert [calls[0]] + [calls[1]] == [calls[0], calls[1]];
      assert calls == [calls[0], calls[1]] + [calls[2]];
    }
  }

  function Zeros(): seq<u8>
  {
    seq(LED_ARRAY_COUNT, _ => 0)
  }

  /** `clear_leds`: every LED off, in order. */
  function ClearCalls(): (r: seq<LedCall>)
    ensures |r| == LED_ARRAY_COUNT && OnRing(r)
  {
    ClearPrefix(LED_ARRAY_COUNT)
  }

  function ClearPrefix(k: nat): (r: seq<LedCall>)
    requires k <= LED_ARRAY_COUNT
    ensures |r| == k
    ensures forall i :: 0 <= i < k ==> r[i] == SetLed(i as u8, 0)
  {
    seq(k, i requires 0 <= i < k => SetLed(i as u8, 0))
  }

  /** Clearing turns every LED of the ring off, whatever it showed. */
  lemma ClearFrame(leds: seq<u8>)
    requires |leds| == LED_ARRAY_COUNT
    ensures Frame(leds, ClearCalls()) == Zeros()
  {
    ClearPrefixFrame(leds, LED_ARRAY_COUNT);
  }

  lemma {:induction false} ClearPrefixFrame(leds: seq<u8>, k: nat)
    requires |leds| == LED_ARRAY_COUNT && k <= LED_ARRAY_COUNT
    ensures Frame(leds, ClearPrefix(k)) == seq(k, _ => 0) + leds[k..]
  {
    if k > 0 {
      assert ClearPrefix(k)[..k - 1] == ClearPrefix(k - 1);
      ClearPrefixFrame(leds, k - 1);
    }
  }

  // ----- arithmetic of the statics -----

  /** The sign of the speed, the way the animations move. */
  function Direction(speed: i16): (d: i8)
    ensures -1 <= d <= 1 && (d == 0 <==> speed == 0) && d * speed >= 0
  {
    if speed > 0 then 1 else if speed < 0 then -1 else 0
  }

  /** `speed += encoder_data` when the encoder moved, truncated to 16 bits. */
  function Absorbed(speed: i16, data: i32): (r: i16)
    ensures (r - speed - data) % 0x1_0000 == 0
  {
    if data != 0 then WrapI16(speed + data) else speed
  }

  /** `i * dir` for a direction of -1, 0 or 1: `i` places forward, back or none. */
  function Offset(dir: int, i: nat): (x: int)
    requires -1 <= dir <= 1
    ensures x == i * dir
  {
    if dir == 1 then i else if dir == -1 then -(i as int) else 0
  }

  /** `led = led_focused + i * direction`, brought onto the ring: the LED `i` places from the
      focused one in direction `dir`. For a focused LED of the ring and fewer than 40 places the
      sum stays within int8, so its truncation never applies. */
  function Along(focused: i8, dir: int, i: nat): (p: u8)
    requires 0 <= focused < LED_ARRAY_COUNT as i8 && -1 <= dir <= 1 && i < 2 * LED_ARRAY_COUNT
    ensures (p as nat) < LED_ARRAY_COUNT
  {
    ((focused + Offset(dir, i)) % LED_ARRAY_COUNT as int) as u8
  }

  /** The first three places from the focused LED: itself, then one and two steps on; with a
      direction the three are different LEDs. */
  lemma AlongNear(f: i8, d: int)
    requires 0 <= f < LED_ARRAY_COUNT as i8 && -1 <= d <= 1
    ensures Along(f, d, 0) as int == f
    ensures Along(f, d, 1) as int == (f + d) % 20 && Along(f, d, 2) as int == (f + 2 * d) % 20
    ensures d == 1 ==> Along(f, d, 1) as int == (f + 1) % 20
    ensures d == -1 ==> Along(f, d, 1) as int == (f + 19) % 20
    ensures d != 0 ==>
      Along(f, d, 0) != Along(f, d, 1) && Along(f, d, 0) != Along(f, d, 2) && Along(f, d, 1) != Along(f, d, 2)
    ensures d == 0 ==> Along(f, d, 1) == Along(f, d, 2) == Along(f, d, 0)
  {
    assert Offset(d, 0) == 0 && Offset(d, 1) == d && Offset(d, 2) == d + d;
    OntoRing(f + 0);
    OntoRing(f + d);
    OntoRing(f + d + d);
    OntoRing(f + 19);
    OntoRing(f + 1);
  }

  /** An index at most 20 off the ring, brought onto it. */
  lemma OntoRing(x: int)
    requires -20 <= x < 40
    ensures x % 20 == if x < 0 then x + 20 else if x >= 20 then x - 20 else x
  {
  }

  // ----- the animations -----

  /** The two LEDs after the focused one, in the direction of motion, at half brightness, and
      the focused one at full brightness. */
  function ChaseCalls(focused: i8, dir: i8): (r: seq<LedCall>)
    requires 0 <= focused < LED_ARRAY_COUNT as i8 && -1 <= dir <= 1
    ensures |r| == TAIL + 1 && OnRing(r)
  {
    seq(TAIL + 1, i requires 0 <= i <= TAIL =>
      SetLed(Along(focused, dir, i), if i == 0 then FULL else HALF))
  }

  /** `process_type_0`: absorb the encoder delta into the speed, step the focused LED by the
      sign of the speed, and show it with a tail of two. */
  function Type0(c: Ctl, data: i32): (r: (Ctl, seq<LedCall>))
    ensures 0 <= r.0.ledFocused < LED_ARRAY_COUNT as i8 && OnRing(r.1)
    ensures r.0 == c.(speed := r.0.speed, ledFocused := r.0.ledFocused)
    ensures r.0.speed == Absorbed(c.speed, data)
    ensures 0 <= c.ledFocused < LED_ARRAY_COUNT as i8 ==>
      r.0.ledFocused as int == (c.ledFocused + Direction(r.0.speed)) % LED_ARRAY_COUNT as int
  {
    var speed := Absorbed(c.speed, data);
    var dir := Direction(speed);
    var focused := (WrapI8(c.ledFocused + dir) % LED_ARRAY_COUNT as int) as i8;
    (c.(speed := speed, ledFocused := focused), ClearCalls() + ChaseCalls(focused, dir))
  }

  /** The chase lights the focused LED at full brightness, then the next two in the direction
      of motion at half, in that order. */
  lemma ChaseShows(leds: seq<u8>, f: i8, d: i8)
    requires |leds| == LED_ARRAY_COUNT && 0 <= f < LED_ARRAY_COUNT as i8 && -1 <= d <= 1
    ensures Frame(leds, ChaseCalls(f, d)) == leds[Along(f, d, 0) := FULL][Along(f, d, 1) := HALF][Along(f, d, 2) := HALF]
  {
    var chase := ChaseCalls(f, d);
    FrameShort(leds, chase);
    assert chase[0] == SetLed(Along(f, d, 0), FULL);
    assert chase[1] == SetLed(Along(f, d, 1), HALF);
    assert chase[2] == SetLed(Along(f, d, 2), HALF);
  }

  /** The calls of `process_type_0` leave the ring dark but for the chase. */
  lemma Type0Shows(c: Ctl, data: i32, leds: seq<u8>)
    requires |leds| == LED_ARRAY_COUNT
    ensures var r := Type0(c, data); var f := r.0.ledFocused; var d := Direction(r.0.speed);
      Frame(leds, r.1) == Zeros()[Along(f, d, 0) := FULL][Along(f, d, 1) := HALF][Along(f, d, 2) := HALF]
  {
    var r := Type0(c, data);
    var f := r.0.ledFocused;
    var d := Direction(r.0.speed);
    assert r.1 == ClearCalls() + ChaseCalls(f, d);
    FrameAppend(leds, ClearCalls(), ChaseCalls(f, d));
    ClearFrame(leds);
    ChaseShows(Zeros(), f, d);
  }

  /** What `process_type_0` shows: the focused LED at full brightness and the two after it at
      half; when the speed is zero all three calls name the focused LED and the last, at half
      brightness, wins. */
  lemma Type0Frame(c: Ctl, data: i32, leds: seq<u8>)
    requires |leds| == LED_ARRAY_COUNT
    ensures var r := Type0(c, data); var f := r.0.ledFocused as int; var d := Direction(r.0.speed) as int;
      var shown := Frame(leds, r.1);
      |shown| == LED_ARRAY_COUNT &&
      (d != 0 ==> forall p :: 0 <= p < LED_ARRAY_COUNT ==>
        shown[p] == if p == f then FULL
                    else if p == (f + d) % 20 || p == (f + 2 * d) % 20 then HALF
                    else 0) &&
      (d == 0 ==> forall p :: 0 <= p < LED_ARRAY_COUNT ==> shown[p] == if p == f then HALF else 0)
  {
    Type0Shows(c, data, leds);
    var r := Type0(c, data);
    var f := r.0.ledFocused;
    var d := Direction(r.0.speed);
    AlongNear(f, d);
  }

  /** One side of `process_type_1`: the focused LED at full brightness and the next one in
      direction `dir` at half. */
  function PairCalls(focused: i8, dir: int): (r: seq<LedCall>)
    requires 0 <= focused < LED_ARRAY_COUNT as i8 && -1 <= dir <= 1
    ensures |r| == TAIL && OnRing(r)
  {
    seq(TAIL, i requires 0 <= i < TAIL =>
      SetLed(Along(focused, dir, i), if i == 0 then FULL else HALF))
  }

  /** `process_type_1`: like type 0, but with one LED at half brightness on each side of the
      focused one. */
  function Type1(c: Ctl, data: i32): (r: (Ctl, seq<LedCall>))
    ensures 0 <= r.0.ledFocused < LED_ARRAY_COUNT as i8 && OnRing(r.1)
    ensures r.0 == c.(speed := r.0.speed, ledFocused := r.0.ledFocused)
    ensures r.0.speed == Absorbed(c.speed, data)
    ensures 0 <= c.ledFocused < LED_ARRAY_COUNT as i8 ==>
      r.0.ledFocused as int == (c.ledFocused + Direction(r.0.speed)) % LED_ARRAY_COUNT as int
  {
    var speed := Absorbed(c.speed, data);
    var dir := Direction(speed);
    var focused := (WrapI8(c.ledFocused + dir) % LED_ARRAY_COUNT as int) as i8;
    (c.(speed := speed, ledFocused := focused),
     ClearCalls() + PairCalls(focused, dir) + PairCalls(focused, -dir))
  }

  /** One side of the pair lights the focused LED at full brightness, then the next one in
      direction `d` at half. */
  lemma PairShows(leds: seq<u8>, f: i8, d: int)
    requires |leds| == LED_ARRAY_COUNT && 0 <= f < LED_ARRAY_COUNT as i8 && -1 <= d <= 1
    ensures Frame(leds, PairCalls(f, d)) == leds[Along(f, d, 0) := FULL][Along(f, d, 1) := HALF]
  {
    var pair := PairCalls(f, d);
    FrameShort(leds, pair);
    assert pair[0] == SetLed(Along(f, d, 0), FULL);
    assert pair[1] == SetLed(Along(f, d, 1), HALF);
  }

  /** The calls of `process_type_1` leave the ring dark but for the pair ahead and then the
      pair behind. */
  lemma Type1Shows(c: Ctl, data: i32, leds: seq<u8>)
    requires |leds| == LED_ARRAY_COUNT
    ensures var r := Type1(c, data); var f := r.0.ledFocused; var d := Direction(r.0.speed);
      Frame(leds, r.1) ==
        Zeros()[Along(f, d, 0) := FULL][Along(f, d, 1) := HALF][Along(f, -d, 0) := FULL][Along(f, -d, 1) := HALF]
  {
    var r := Type1(c, data);
    var f := r.0.ledFocused;
    var d := Direction(r.0.speed);
    var ahead, behind := PairCalls(f, d), PairCalls(f, -d);
    assert r.1 == (ClearCalls() + ahead) + behind;
    FrameAppend(leds, ClearCalls() + ahead, behind);
    FrameAppend(leds, ClearCalls(), ahead);
    ClearFrame(leds);
    PairShows(Zeros(), f, d);
    PairShows(Frame(Zeros(), ahead), f, -d);
  }

  /** What `process_type_1` shows: the focused LED at full brightness between two at half; at
      speed zero the focused LED alone, at half. */
  lemma Type1Frame(c: Ctl, data: i32, leds: seq<u8>)
    requires |leds| == LED_ARRAY_COUNT
    ensures var r := Type1(c, data); var f := r.0.ledFocused as int; var d := Direction(r.0.speed) as int;
      var shown := Frame(leds, r.1);
      |shown| == LED_ARRAY_COUNT &&
      (d != 0 ==> forall p :: 0 <= p < LED_ARRAY_COUNT ==>
        shown[p] == if p == f then FULL else if p == (f + 1) % 20 || p == (f + 19) % 20 then HALF else 0) &&
      (d == 0 ==> forall p :: 0 <= p < LED_ARRAY_COUNT ==> shown[p] == if p == f then HALF else 0)
  {
    Type1Shows(c, data, leds);
    var r := Type1(c, data);
    var f := r.0.ledFocused;
    var d := Direction(r.0.speed);
    AlongNear(f, d);
    AlongNear(f, -d);
  }

  /** The sweep of `process_type_2`: `k` LEDs from the focused one in the direction of motion,
      dim for the first 20 and off for the rest. */
  function SweepCalls(focused: i8, dir: i8, k: nat): (r: seq<LedCall>)
    requires 0 <= focused < LED_ARRAY_COUNT as i8 && -1 <= dir <= 1 && k < 2 * LED_ARRAY_COUNT
    ensures |r| == k && OnRing(r)
  {
    seq(k, i requires 0 <= i < k => SetLed(Along(focused, dir, i), if i < LED_ARRAY_COUNT then DIM else 0))
  }

  /** The sweep counter after one more step: it wraps as an int8 and restarts at 40 (or -40). */
  function NextSweep(sweep: i8): (r: (bool, i8))
    ensures r.1 < 2 * LED_ARRAY_COUNT as i8
    ensures r.0 ==> r.1 == 0
    ensures !r.0 ==> r.1 as int == sweep + 1
    ensures 0 <= sweep < 2 * LED_ARRAY_COUNT as i8 ==> (r.0 <==> sweep + 1 == 2 * LED_ARRAY_COUNT)
  {
    var s := WrapI8(sweep + 1);
    if s >= 2 * LED_ARRAY_COUNT as int || s <= -2 * LED_ARRAY_COUNT as int then (true, 0) else (false, s)
  }

  /** `process_type_2`: advance the sweep; each time it completes, step the focused LED. The
      sweep lights up to 20 LEDs from the focused one and then puts them out again; the focused
      LED is at full brightness. */
  function Type2(c: Ctl, data: i32): (r: (Ctl, seq<LedCall>))
    ensures 0 <= r.0.ledFocused < LED_ARRAY_COUNT as i8 && OnRing(r.1)
    ensures r.0 == c.(speed := r.0.speed, ledFocused := r.0.ledFocused, ledSweep := r.0.ledSweep)
    ensures r.0.speed == Absorbed(c.speed, data)
    ensures 0 <= c.ledSweep ==> 0 <= r.0.ledSweep < 2 * LED_ARRAY_COUNT as i8
    ensures |r.1| > 0 && r.1[|r.1| - 1] == SetLed(r.0.ledFocused as u8, FULL)
  {
    var speed := Absorbed(c.speed, data);
    var dir := Direction(speed);
    var (reset, sweep) := NextSweep(c.ledSweep);
    var moved := if reset then WrapI8(c.ledFocused + dir) else c.ledFocused;
    var focused := (moved % LED_ARRAY_COUNT as int) as i8;
    (c.(speed := speed, ledFocused := focused, ledSweep := sweep),
     ClearCalls() + SweepCalls(focused, dir, SweepLength(sweep)) + [SetLed(focused as u8, FULL)])
  }

  /** The number of LEDs the sweep loop visits: none for a negative sweep counter. */
  function SweepLength(sweep: i8): (k: nat)
    ensures sweep < 2 * LED_ARRAY_COUNT as i8 ==> k < 2 * LED_ARRAY_COUNT
    ensures sweep >= 0 ==> k == sweep as nat
  {
    if sweep > 0 then sweep as nat else 0
  }

  /** The focused LED moves only when a sweep completes, by the sign of the speed. */
  lemma Type2Moves(c: Ctl, data: i32)
    requires WellFormed(c)
    ensures var r := Type2(c, data);
      (c.ledSweep + 1 < 2 * LED_ARRAY_COUNT ==>
        r.0.ledFocused == c.ledFocused && r.0.ledSweep == c.ledSweep + 1) &&
      (c.ledSweep + 1 == 2 * LED_ARRAY_COUNT ==>
        r.0.ledSweep == 0 &&
        r.0.ledFocused as int == (c.ledFocused + Direction(r.0.speed)) % LED_ARRAY_COUNT as int)
  {
  }

  /** Two places along the ring from the same LED are the same LED only 20 places apart. */
  lemma AlongInjective(f: i8, d: int, i: nat, j: nat)
    requires 0 <= f < LED_ARRAY_COUNT as i8 && (d == 1 || d == -1) && i < 2 * LED_ARRAY_COUNT && j < LED_ARRAY_COUNT
    ensures Along(f, d, i) == Along(f, d, j) <==> i == j || i == j + LED_ARRAY_COUNT
  {
    var k := if i < LED_ARRAY_COUNT then i else i - LED_ARRAY_COUNT;
    var x, y := f + Offset(d, k), f + Offset(d, j);
    assert Along(f, d, i) as int == x % 20 by {
      if i >= LED_ARRAY_COUNT {
        if d == 1 {
          assert f + Offset(d, i) == x + 20;
          ShiftMod(x, 20);
        } else {
          assert f + Offset(d, i) == x - 20;
          ShiftMod(x - 20, 20);
        }
      }
    }
    OntoRing(x);
    OntoRing(y);
  }

  /** After `k` steps of the sweep from dark, the LED `j` places along is dim exactly when the
      sweep has passed it and has not yet come round 20 places later to put it out. */
  lemma {:induction false} SweepFrame(f: i8, d: i8, k: nat)
    requires 0 <= f < LED_ARRAY_COUNT as i8 && (d == 1 || d == -1) && k < 2 * LED_ARRAY_COUNT
    ensures forall j :: 0 <= j < LED_ARRAY_COUNT ==>
      Frame(Zeros(), SweepCalls(f, d, k))[Along(f, d, j)] == if j < k <= j + LED_ARRAY_COUNT then DIM else 0
  {
    if k > 0 {
      SweepFrame(f, d, k - 1);
      var calls := SweepCalls(f, d, k);
      assert calls[..k - 1] == SweepCalls(f, d, k - 1);
      forall j | 0 <= j < LED_ARRAY_COUNT
        ensures Frame(Zeros(), calls)[Along(f, d, j)] == if j < k <= j + LED_ARRAY_COUNT then DIM else 0
      {
        AlongInjective(f, d, k - 1, j);
      }
    }
  }

  /** What `process_type_2` shows. With the encoder turning, the LED `j` places along from the
      focused one is dim while the sweep has passed it within the last 20 steps, and the focused
      LED is at full brightness; at speed zero only the focused LED is lit. */
  lemma Type2Frame(c: Ctl, data: i32, leds: seq<u8>)
    requires |leds| == LED_ARRAY_COUNT
    ensures var r := Type2(c, data); var f := r.0.ledFocused; var d := Direction(r.0.speed);
      var k := SweepLength(r.0.ledSweep); var shown := Frame(leds, r.1);
      |shown| == LED_ARRAY_COUNT &&
      (d != 0 ==> forall j :: 0 <= j < LED_ARRAY_COUNT ==>
        shown[Along(f, d, j)] == if j == 0 then FULL else if j < k <= j + LED_ARRAY_COUNT then DIM else 0) &&
      (d == 0 ==> shown == Zeros()[f := FULL])
  {
    var r := Type2(c, data);
    var f := r.0.ledFocused;
    var d := Direction(r.0.speed);
    var k := SweepLength(r.0.ledSweep);
    var sweep := SweepCalls(f, d, k);
    var last := SetLed(f as u8, FULL);
    assert r.1 == (ClearCalls() + sweep) + [last];
    FrameSnoc(leds, ClearCalls() + sweep, last);
    FrameAppend(leds, ClearCalls(), sweep);
    ClearFrame(leds);
    if d != 0 {
      SweepFrame(f, d, k);
      forall j | 0 <= j < LED_ARRAY_COUNT
        ensures Frame(leds, r.1)[Along(f, d, j)] == if j == 0 then FULL else if j < k <= j + LED_ARRAY_COUNT then DIM else 0
      {
        AlongInjective(f, d, j, 0);
        AlongNear(f, d);
      }
    } else {
      SweepStill(f, k);
    }
  }

  /** At speed zero every step of the sweep names the focused LED. */
  lemma {:induction false} SweepStill(f: i8, k: nat)
    requires 0 <= f < LED_ARRAY_COUNT as i8 && k < 2 * LED_ARRAY_COUNT
    ensures forall p :: 0 <= p < LED_ARRAY_COUNT && p != f as int ==> Frame(Zeros(), SweepCalls(f, 0, k))[p] == 0
  {
    if k > 0 {
      SweepStill(f, k - 1);
      assert SweepCalls(f, 0, k)[..k - 1] == SweepCalls(f, 0, k - 1);
      assert Along(f, 0, k - 1) as int == f by {
        assert (k - 1) * 0 == 0;
      }
    }
  }

  /** The counter's step: `counter++`, wrapping at 32 bits. */
  function NextCounter(counter: u32): (r: u32)
    ensures counter < U32_MAX ==> r == counter + 1
    ensures counter == U32_MAX ==> r == 0
  {
    WrapU32(counter + 1)
  }

  /** The magnitude of the speed the animation timer uses; a stopped encoder counts as 1. */
  function Magnitude(speed: i16): (m: nat)
    ensures m >= 1 && (speed != 0 ==> m * m == speed * speed)
  {
    if speed == 0 then 1 else if speed > 0 then speed as int else -(speed as int)
  }

  /** The animation timer as written: the magnitude is narrowed to int8 before the unsigned
      32-bit product is taken. A narrowed magnitude of 0 never fires; a positive one fires once
      the product reaches the threshold; a negative one wraps the product to just below 2^32
      and fires on every tick until the counter times its size comes close to 2^32. */
  function FiresAsWritten(counter: u32, speed: i16): (b: bool)
    ensures var n := WrapI8(Magnitude(speed)) as int;
      (n == 0 ==> !b) &&
      (0 < n && counter * n <= U32_MAX ==> (b <==> counter * n >= ANIMATION_THRESHOLD)) &&
      (n < 0 && 0 < counter * -n <= U32_MAX ==>
        (b <==> counter * -n <= 0x1_0000_0000 - ANIMATION_THRESHOLD))
  {
    var absSpeed := WrapI8(Magnitude(speed));
    WrappedProduct(counter, absSpeed);
    WrapU32(counter * WrapU32(absSpeed)) >= ANIMATION_THRESHOLD
  }

  /** The unsigned 32-bit product of the counter and the narrowed magnitude, by its sign. */
  lemma WrappedProduct(counter: u32, n: i8)
    ensures n >= 0 && counter * n <= U32_MAX ==> WrapU32(counter * WrapU32(n)) == counter * n
    ensures n < 0 && 0 < counter * -(n as int) <= U32_MAX ==>
      WrapU32(counter * WrapU32(n)) == 0x1_0000_0000 - counter * -(n as int)
  {
    var size := -(n as int);
    if n < 0 && 0 < counter * size <= U32_MAX {
      assert WrapU32(n) == 0x1_0000_0000 - size;
      var x := counter * WrapU32(n);
      assert x == (counter - 1) * 0x1_0000_0000 + (0x1_0000_0000 - counter * size);
      ModuloShift(counter - 1, 0x1_0000_0000 - counter * size);
    }
  }

  lemma ModuloShift(k: nat, r: nat)
    requires r < 0x1_0000_0000
    ensures WrapU32(k * 0x1_0000_0000 + r) == r
  {
    var x := k * 0x1_0000_0000 + r;
    assert (x - r) % 0x1_0000_0000 == 0;
  }

  /** At speed 256 the narrowed magnitude is 0, so the animation never advances, while at
      speed 255 it is -1 and the animation advances on every tick. */
  lemma FiresAsWrittenStallsAt256(counter: u32)
    ensures !FiresAsWritten(counter, 256)
    ensures FiresAsWritten(1, 255)
  {
    assert WrapI8(Magnitude(256)) == 0;
    assert WrapI8(Magnitude(255)) == -1;
  }

  /** The animation timer as evidently intended: the counter times the magnitude of the speed. */
  function Fires(counter: u32, speed: i16): (b: bool)
    ensures counter >= ANIMATION_THRESHOLD ==> b
    ensures counter == 0 ==> !b
  {
    counter * Magnitude(speed) >= ANIMATION_THRESHOLD
  }

  /** The intended timer fires later for a smaller counter or a slower speed, never earlier. */
  lemma FiresMonotone(counter: u32, counter2: u32, speed: i16, speed2: i16)
    ensures Fires(counter, speed) && counter <= counter2 ==> Fires(counter2, speed)
    ensures Fires(counter, speed) && Magnitude(speed) <= Magnitude(speed2) ==> Fires(counter, speed2)
  {
    if counter <= counter2 {
      MulMonotone(counter, counter2, Magnitude(speed));
    }
    if Magnitude(speed) <= Magnitude(speed2) {
      MulMonotone(Magnitude(speed), Magnitude(speed2), counter);
    }
  }

  lemma MulMonotone(a: nat, b: nat, k: nat)
    requires a <= b
    ensures a * k <= b * k && k * a <= k * b
  {
  }

  /** The intended timer agrees with the source's wherever the source's int8 narrowing and
      32-bit product lose nothing. */
  lemma FiresAgreesWhenNarrow(counter: u32, speed: i16)
    requires Magnitude(speed) < 0x80 && counter * Magnitude(speed) <= U32_MAX
    ensures Fires(counter, speed) <==> FiresAsWritten(counter, speed)
  {
    var m := Magnitude(speed);
    assert WrapI8(m) == m && WrapU32(m) == m;
    assert WrapU32(counter * m) == counter * m;
  }

  /** `process_normal`: count the tick; once the counter times the speed reaches the threshold,
      restart the count and advance the selected animation (which absorbs the encoder delta);
      otherwise only the speed absorbs it. A type that is no animation absorbs nothing. */
  function Normal(c: Ctl, data: i32): (r: (Ctl, seq<LedCall>))
    ensures OnRing(r.1)
    ensures r.0.mode == c.mode && r.0.animationType == c.animationType
    ensures FiresAsWritten(NextCounter(c.counter), c.speed) ==> r.0.counter == 0
    ensures FiresAsWritten(NextCounter(c.counter), c.speed) && !(0 <= c.animationType < ANIMATION_TYPES as i8) ==>
      r == (c.(counter := 0), [])
    ensures !FiresAsWritten(NextCounter(c.counter), c.speed) ==>
      r == (c.(counter := NextCounter(c.counter), speed := Absorbed(c.speed, data)), [])
    ensures 0 <= c.animationType < ANIMATION_TYPES as i8 ==> r.0.speed == Absorbed(c.speed, data)
    ensures WellFormed(c) ==> WellFormed(r.0)
  {
    var counter := NextCounter(c.counter);
    if FiresAsWritten(counter, c.speed) then
      var restarted := c.(counter := 0);
      if c.animationType == 0 then Type0(restarted, data)
      else if c.animationType == 1 then Type1(restarted, data)
      else if c.animationType == 2 then Type2(restarted, data)
      else (restarted, [])
    else
      (c.(counter := counter, speed := Absorbed(c.speed, data)), [])
  }

  /** With the encoder still and a speed below 128, the animation advances exactly once every
      `n` ticks, where `n` is the least count whose product with the speed reaches the threshold.
      At speeds whose magnitude is a multiple of 256 it never advances, and where the int8
      narrowing makes the magnitude negative it advances on every tick. */
  lemma NormalPeriod(c: Ctl)
    requires WellFormed(c) && c.counter < U32_MAX
    ensures var r := Normal(c, 0); var m := Magnitude(c.speed);
      (m < 0x80 && (c.counter + 1) * m <= U32_MAX ==>
        ((c.counter + 1) * m >= ANIMATION_THRESHOLD ==> r.0.counter == 0 && |r.1| > 0) &&
        ((c.counter + 1) * m < ANIMATION_THRESHOLD ==> r.0 == c.(counter := c.counter + 1) && r.1 == [])) &&
      (m % 0x100 == 0 ==> r.0 == c.(counter := c.counter + 1) && r.1 == []) &&
      (0x80 <= m % 0x100 && (c.counter + 1) * (0x100 - m % 0x100) <= 0x1_0000_0000 - ANIMATION_THRESHOLD ==>
        r.0.counter == 0 && |r.1| > 0)
  {
    var k := c.counter + 1;
    assert NextCounter(c.counter) == k;
    FiresAsWrittenCases(k, c.speed);
    NormalOutcome(c);
  }

  /** The as-written timer, case by case on the speed's magnitude `m`: below 128 it is the
      intended product; a multiple of 256 narrows to 0 and never fires; otherwise from 128 up it
      narrows to the negative `m % 256 - 256`, whose product wraps to near 2^32 and fires. */
  lemma FiresAsWrittenCases(k: u32, speed: i16)
    ensures var m := Magnitude(speed);
      (m < 0x80 && k * m <= U32_MAX ==> (FiresAsWritten(k, speed) <==> k * m >= ANIMATION_THRESHOLD)) &&
      (m % 0x100 == 0 ==> !FiresAsWritten(k, speed)) &&
      (0x80 <= m % 0x100 && 0 < k && k * (0x100 - m % 0x100) <= 0x1_0000_0000 - ANIMATION_THRESHOLD ==>
        FiresAsWritten(k, speed))
  {
    var m := Magnitude(speed);
    if m < 0x80 && k * m <= U32_MAX {
      FiresAgreesWhenNarrow(k, speed);
    }
    if m % 0x100 == 0 {
      assert WrapI8(m) == 0;
    }
    if 0x80 <= m % 0x100 && 0 < k && k * (0x100 - m % 0x100) <= 0x1_0000_0000 - ANIMATION_THRESHOLD {
      NegativeTimer(k, speed);
    }
  }

  lemma NegativeTimer(k: u32, speed: i16)
    requires 0x80 <= Magnitude(speed) % 0x100 && 0 < k
    requires k * (0x100 - Magnitude(speed) % 0x100) <= 0x1_0000_0000 - ANIMATION_THRESHOLD
    ensures FiresAsWritten(k, speed)
  {
    var m := Magnitude(speed);
    var n := WrapI8(m);
    assert n == (m % 0x100) as int - 0x100;
    assert -(n as int) == 0x100 - m % 0x100;
    assert 0 < k * -(n as int);
  }

  /** Without a delta, a tick either fires (restart and draw) or only counts. */
  lemma NormalOutcome(c: Ctl)
    requires WellFormed(c)
    ensures var r := Normal(c, 0);
      (FiresAsWritten(NextCounter(c.counter), c.speed) ==> r.0.counter == 0 && |r.1| > 0) &&
      (!FiresAsWritten(NextCounter(c.counter), c.speed) ==>
        r.0 == c.(counter := NextCounter(c.counter)) && r.1 == [])
  {
  }

  /** The animation type after `process_mode_adjustment`'s loops. */
  function AdjustedType(t: i8, data: i32): (r: i8)
    ensures data != 0 ==> 0 <= r < ANIMATION_TYPES as i8 && (r - WrapI8(t + data)) % ANIMATION_TYPES as int == 0
    ensures data != 0 && -0x80 <= t + data < 0x80 ==> (r - t - data) % ANIMATION_TYPES as int == 0
    ensures data == 0 ==> r == t
  {
    if data != 0 then (WrapI8(t + data) % ANIMATION_TYPES as int) as i8 else t
  }

  /** `process_mode_adjustment`: pick the animation by the encoder delta, then show its number
      as the one lit LED. */
  function ModeAdjust(c: Ctl, data: i32): (r: (Ctl, seq<LedCall>))
    ensures r.0 == c.(animationType := AdjustedType(c.animationType, data))
    ensures |r.1| == LED_ARRAY_COUNT + 1 && r.1[..LED_ARRAY_COUNT] == ClearCalls()
    ensures r.1[LED_ARRAY_COUNT] == SetLed(WrapU8(r.0.animationType), FULL)
  {
    var t := AdjustedType(c.animationType, data);
    (c.(animationType := t), ClearCalls() + [SetLed(WrapU8(t), FULL)])
  }

  /** After a mode adjustment with the encoder moved, or from a well-formed state, the type is
      an animation that exists and the ring shows only its LED. */
  lemma ModeAdjustShowsType(c: Ctl, data: i32, leds: seq<u8>)
    requires |leds| == LED_ARRAY_COUNT && (data != 0 || WellFormed(c))
    ensures var r := ModeAdjust(c, data);
      0 <= r.0.animationType < ANIMATION_TYPES as i8 && OnRing(r.1) &&
      Frame(leds, r.1) == Zeros()[r.0.animationType := FULL]
  {
    var r := ModeAdjust(c, data);
    FrameAppend(leds, ClearCalls(), [r.1[LED_ARRAY_COUNT]]);
    ClearFrame(leds);
    assert r.1 == ClearCalls() + [r.1[LED_ARRAY_COUNT]];
  }

  /** `process_mode`: normal mode runs the animation, mode 1 adjusts the animation type. */
  function Mode(c: Ctl, data: i32): (r: (Ctl, seq<LedCall>))
    ensures r.0.mode == c.mode
    ensures c.mode == 0 ==> r == Normal(c, data)
    ensures c.mode == 1 ==> r == ModeAdjust(c, data)
    ensures c.mode > 1 ==> r == (c, [])
  {
    if c.mode == 0 then Normal(c, data)
    else if c.mode == 1 then ModeAdjust(c, data)
    else (c, [])
  }

  /** `process_switch_mode`: toggle between the two modes and clear the ring. */
  function SwitchMode(c: Ctl): (r: (Ctl, seq<LedCall>))
    ensures r.0.mode in {0, 1} && (r.0.mode == 0 <==> c.mode != 0)
    ensures r.0 == c.(mode := r.0.mode) && r.1 == ClearCalls()
  {
    (c.(mode := if c.mode == 0 then 1 else 0), ClearCalls())
  }

  /** Switching twice from either mode comes back to it. */
  lemma SwitchModeTwice(c: Ctl)
    requires c.mode in {0, 1}
    ensures SwitchMode(SwitchMode(c).0).0 == c
  {
  }

  /** `process_init`: clear the ring and light LED 0. */
  function InitStep(c: Ctl): (r: (Ctl, seq<LedCall>))
    ensures r.0 == c.(ledFocused := 0)
    ensures r.1 == ClearCalls() + [SetLed(0, FULL)]
  {
    (c.(ledFocused := 0), ClearCalls() + [SetLed(0, FULL)])
  }

  /** The value of command 0: the first four command bytes, most significant first. */
  function CommandValue(buffer: seq<u8>): (v: i32)
    requires |buffer| >= 4
    ensures BitsOfI32(v) == EncoderComms.FromBigEndian(buffer[..4])
  {
    EncoderComms.BitsOfWrapI32(EncoderComms.FromBigEndian(buffer[..4]));
    WrapI32(EncoderComms.FromBigEndian(buffer[..4]))
  }

  /** The command part of `controller_tick`: command 0 feeds its value to the current mode,
      command 1 switches mode, anything else is ignored. */
  function CommandStep(c: Ctl, command: u8, buffer: seq<u8>): (r: (Ctl, seq<LedCall>))
    requires |buffer| >= 4
    ensures command == 0 ==> r == Mode(c, CommandValue(buffer))
    ensures command == 1 ==> r == SwitchMode(c)
    ensures command > 1 ==> r == (c, [])
  {
    if command == 0 then Mode(c, CommandValue(buffer))
    else if command == 1 then SwitchMode(c)
    else (c, [])
  }

  /** The controller's part of `controller_tick`, given the clicks and encoder delta taken from
      the encoder and the command read from the bus: switch mode on a click, run the mode with
      the delta, then apply the command. */
  function TickStep(c: Ctl, clicks: u8, encoderData: i32, command: u8, buffer: seq<u8>): (r: (Ctl, seq<LedCall>))
    requires |buffer| >= 4
    ensures clicks == 0 && command != 1 ==> r.0.mode == c.mode
    ensures c.mode in {0, 1} && (clicks != 0) != (command == 1) ==> r.0.mode == 1 - c.mode
    ensures c.mode in {0, 1} && clicks != 0 && command == 1 ==> r.0.mode == c.mode
    ensures clicks != 0 ==> ClearCalls() <= r.1
  {
    var switched := if clicks != 0 then SwitchMode(c) else (c, []);
    var moded := Mode(switched.0, encoderData);
    var commanded := CommandStep(moded.0, command, buffer);
    (commanded.0, switched.1 + moded.1 + commanded.1)
  }

  /** Every step of the controller keeps it well formed and names only LEDs of the ring. */
  lemma TickStepWellFormed(c: Ctl, clicks: u8, encoderData: i32, command: u8, buffer: seq<u8>)
    requires WellFormed(c) && |buffer| >= 4
    ensures WellFormed(TickStep(c, clicks, encoderData, command, buffer).0)
    ensures OnRing(TickStep(c, clicks, encoderData, command, buffer).1)
  {
    var switched := if clicks != 0 then SwitchMode(c) else (c, []);
    var moded := Mode(switched.0, encoderData);
    ModeWellFormed(switched.0, encoderData);
    ModeWellFormed(moded.0, CommandValue(buffer));
    var commanded := CommandStep(moded.0, command, buffer);
    OnRingAppend(switched.1, moded.1);
    OnRingAppend(switched.1 + moded.1, commanded.1);
  }

  lemma ModeWellFormed(c: Ctl, data: i32)
    requires WellFormed(c)
    ensures WellFormed(Mode(c, data).0) && OnRing(Mode(c, data).1)
  {
    if c.mode == 1 {
      ModeAdjustShowsType(c, data, Zeros());
    }
  }

  lemma OnRingAppend(a: seq<LedCall>, b: seq<LedCall>)
    requires OnRing(a) && OnRing(b)
    ensures OnRing(a + b)
  {
    assert forall i :: |a| <= i < |a + b| ==> (a + b)[i] == b[i - |a|];
  }

  // ----- the calls on the LED array -----

  /** The LED array's direction bytes after `calls`, each made by `led_array_set_led`. */
  function Directions(directions: seq<bv8>, calls: seq<LedCall>): (r: seq<bv8>)
    requires |directions| == LedArray.LED_PHASES && OnRing(calls)
    ensures |r| == LedArray.LED_PHASES
  {
    if calls == [] then directions
    else
      var last := calls[|calls| - 1];
      assert OnRing(calls[..|calls| - 1]);
      LedArray.SetLedDirections(Directions(directions, calls[..|calls| - 1]), last.position as nat, last.value)
  }

  /** The prototype's LED array has no dimming: after the calls it lights exactly the LEDs the
      calls leave at a brightness above zero. */
  lemma {:induction false} DirectionsShowFrame(directions: seq<bv8>, leds: seq<u8>, calls: seq<LedCall>, p: nat)
    requires |directions| == LedArray.LED_PHASES && |leds| == LED_ARRAY_COUNT
    requires OnRing(calls) && p < LED_ARRAY_COUNT
    requires LedArray.Lit(directions, p) <==> leds[p] != 0
    ensures LedArray.Lit(Directions(directions, calls), p) <==> Frame(leds, calls)[p] != 0
  {
    if calls != [] {
      var init := calls[..|calls| - 1];
      var last := calls[|calls| - 1];
      assert OnRing(init);
      DirectionsShowFrame(directions, leds, init, p);
      LedArray.SetLedLights(Directions(directions, init), last.position as nat, last.value, p);
    }
  }

  /** Make the calls on the LED array, in order. */
  method ShowCalls(leds: LedArray.LedArrayDriver, calls: seq<LedCall>)
    requires leds.Valid() && OnRing(calls)
    modifies leds.directions
    ensures leds.directions[..] == Directions(old(leds.directions[..]), calls)
  {
    var i := 0;
    while i < |calls|
      invariant 0 <= i <= |calls|
      invariant OnRing(calls[..i])
      invariant leds.directions[..] == Directions(old(leds.directions[..]), calls[..i])
    {
      leds.SetLed(calls[i].position, calls[i].value);
      assert calls[..i + 1][..i] == calls[..i];
      i := i + 1;
    }
    assert calls[..|calls|] == calls;
  }

  // ----- the controller's statics, updated in place -----

  /** The `while` loops that bring an int8 index onto `0 .. n - 1`: add `n` while it is
      negative, then subtract `n` while it is too large. */
  method Normalize(x: i8, n: nat) returns (r: i8)
    requires n == LED_ARRAY_COUNT || n == ANIMATION_TYPES
    ensures r as int == x as int % n
  {
    r := x;
    while r < 0
      invariant x <= r && (x < 0 ==> r < n as int) && r as int % n == x as int % n
      decreases -(r as int)
    {
      ShiftMod(r as int, n);
      r := r + n as i8;
    }
    while r >= n as i8
      invariant 0 <= r && r as int % n == x as int % n
      decreases r
    {
      ShiftMod(r as int - n, n);
      r := r - n as i8;
    }
  }

  /** Adding the modulus leaves the remainder; the controller uses two moduli. */
  lemma ShiftMod(a: int, n: nat)
    requires n == LED_ARRAY_COUNT || n == ANIMATION_TYPES
    ensures (a + n) % n == a % n
  {
    if n == LED_ARRAY_COUNT {
      assert (a + 20) % 20 == a % 20;
    } else {
      assert (a + 3) % 3 == a % 3;
    }
  }

  /** `led = led_focused + i * direction`, brought onto the ring by the `while` loops. */
  method LedAlong(focused: i8, direction: int, i: nat) returns (led: u8)
    requires 0 <= focused < LED_ARRAY_COUNT as i8 && -1 <= direction <= 1 && i < 2 * LED_ARRAY_COUNT
    ensures led == Along(focused, direction, i)
  {
    assert -0x80 <= focused + i * direction < 0x80 by {
      assert i * direction == Offset(direction, i);
    }
    var index := Normalize(WrapI8(focused + i * direction), LED_ARRAY_COUNT);
    led := index as u8;
  }

  /** `clear_leds`. */
  method ClearLeds() returns (calls: seq<LedCall>)
    ensures calls == ClearCalls()
  {
    calls := [];
    var ledCounter: u8 := 0;
    while ledCounter < LED_ARRAY_COUNT as u8
      invariant ledCounter as nat <= LED_ARRAY_COUNT && calls == ClearPrefix(ledCounter as nat)
    {
      calls := calls + [SetLed(ledCounter, 0)];
      ledCounter := ledCounter + 1;
    }
  }

  /** The statics of controller.c. Each `process_*` function returns the LED calls it makes.
      The static `command` is overwritten by every tick before it is read, so it is a value
      `Tick` returns; the command buffer keeps what the bus leaves in it. */
  class ControllerDriver {
    var mode: u8
    var ledFocused: i8
    var animationType: i8
    var speed: i16
    var counter: u32
    var ledSweep: i8
    const commandBuffer: array<u8>

    ghost function Model(): Ctl
      reads this
    {
      Ctl(mode, ledFocused, animationType, speed, counter, ledSweep)
    }

    ghost predicate Valid()
      reads this
    {
      commandBuffer.Length == EncoderComms.COMMS_BUFF_SIZE && WellFormed(Model())
    }

    /** The statics' initial values; the command buffer starts zeroed. */
    constructor()
      ensures Valid() && fresh(commandBuffer) && Model() == INITIAL
      ensures commandBuffer[..] == seq(EncoderComms.COMMS_BUFF_SIZE, _ => 0)
    {
      mode, ledFocused, animationType, speed, counter, ledSweep := 0, 0, 0, 1, 0, 0;
      commandBuffer := new u8[EncoderComms.COMMS_BUFF_SIZE](_ => 0);
    }

    /** `process_init`. */
    method ProcessInit() returns (calls: seq<LedCall>)
      modifies this
      ensures (Model(), calls) == InitStep(old(Model()))
    {
      calls := ClearLeds();
      ledFocused := 0;
      calls := calls + [SetLed(ledFocused as u8, FULL)];
    }

    /** `process_switch_mode`. */
    method ProcessSwitchMode() returns (calls: seq<LedCall>)
      modifies this
      ensures (Model(), calls) == SwitchMode(old(Model()))
    {
      mode := if mode == 0 then 1 else 0;
      calls := ClearLeds();
    }

    /** `speed += encoder_data` when the encoder moved, and the resulting direction. */
    method AbsorbSpeed(data: i32) returns (direction: i8)
      modifies this
      ensures speed == Absorbed(old(speed), data) && direction == Direction(speed)
      ensures Model() == old(Model()).(speed := speed)
    {
      if data != 0 {
        speed := WrapI16(speed as int + data as int);
      }
      direction := if speed > 0 then 1 else if speed < 0 then -1 else 0;
    }

    /** `process_type_0`. */
    method ProcessType0(data: i32) returns (calls: seq<LedCall>)
      modifies this
      ensures (Model(), calls) == Type0(old(Model()), data)
    {
      var direction := AbsorbSpeed(data);
      calls := ClearLeds();
      var focused := Normalize(WrapI8(ledFocused as int + direction as int), LED_ARRAY_COUNT);
      ledFocused := focused;
      var i: nat := 0;
      while i <= TAIL
        invariant i <= TAIL + 1
        invariant calls == ClearCalls() + ChaseCalls(focused, direction)[..i]
        modifies {}
      {
        var led := LedAlong(focused, direction as int, i);
        calls := calls + [SetLed(led, if i == 0 then FULL else HALF)];
        i := i + 1;
      }
      assert ChaseCalls(focused, direction)[..TAIL + 1] == ChaseCalls(focused, direction);
    }

    /** `process_type_1`. */
    method ProcessType1(data: i32) returns (calls: seq<LedCall>)
      modifies this
      ensures (Model(), calls) == Type1(old(Model()), data)
    {
      var direction := AbsorbSpeed(data);
      calls := ClearLeds();
      var focused := Normalize(WrapI8(ledFocused as int + direction as int), LED_ARRAY_COUNT);
      ledFocused := focused;
      var i: nat := 0;
      while i < TAIL
        invariant i <= TAIL
        invariant calls == ClearCalls() + PairCalls(focused, direction as int)[..i]
        modifies {}
      {
        var led := LedAlong(focused, direction as int, i);
        calls := calls + [SetLed(led, if i == 0 then FULL else HALF)];
        i := i + 1;
      }
      assert PairCalls(focused, direction as int)[..TAIL] == PairCalls(focused, direction as int);
      // `led_focused - (i * direction)` is `i` places the other way
      var back := -(direction as int);
      var forward := calls;
      i := 0;
      while i < TAIL
        invariant i <= TAIL
        invariant calls == forward + PairCalls(focused, back)[..i]
        modifies {}
      {
        var led := LedAlong(focused, back, i);
        calls := calls + [SetLed(led, if i == 0 then FULL else HALF)];
        i := i + 1;
      }
      assert PairCalls(focused, back)[..TAIL] == PairCalls(focused, back);
    }

    /** `process_type_2`. */
    method ProcessType2(data: i32) returns (calls: seq<LedCall>)
      modifies this
      ensures (Model(), calls) == Type2(old(Model()), data)
    {
      var direction := AbsorbSpeed(data);
      calls := ClearLeds();
      var sweep := WrapI8(ledSweep as int + 1);
      var moved := ledFocused;
      if sweep >= 2 * LED_ARRAY_COUNT as i8 || sweep <= -2 * LED_ARRAY_COUNT as i8 {
        moved := WrapI8(ledFocused as int + direction as int);
        sweep := 0;
      }
      var focused := Normalize(moved, LED_ARRAY_COUNT);
      ledFocused, ledSweep := focused, sweep;
      var i: nat := 0;
      while i < sweep as int
        invariant i <= SweepLength(sweep)
        invariant calls == ClearCalls() + SweepCalls(focused, direction, i)
        modifies {}
      {
        var led := LedAlong(focused, direction as int, i);
        calls := calls + [SetLed(led, if i < LED_ARRAY_COUNT then DIM else 0)];
        i := i + 1;
      }
      calls := calls + [SetLed(focused as u8, FULL)];
    }

    /** `process_normal`: the magnitude is narrowed to int8 and the product taken on 32 bits. */
    method ProcessNormal(data: i32) returns (calls: seq<LedCall>)
      modifies this
      ensures (Model(), calls) == Normal(old(Model()), data)
    {
      counter := if counter == U32_MAX as u32 then 0 else counter + 1;
      var absSpeed: i8 := WrapI8(if speed == 0 then 1 else if speed > 0 then speed as int else -(speed as int));
      if WrapU32(counter * WrapU32(absSpeed)) >= ANIMATION_THRESHOLD {
        counter := 0;
        if animationType == 0 {
          calls := ProcessType0(data);
        } else if animationType == 1 {
          calls := ProcessType1(data);
        } else if animationType == 2 {
          calls := ProcessType2(data);
        } else {
          calls := [];
        }
      } else {
        if data != 0 {
          speed := WrapI16(speed as int + data as int);
        }
        calls := [];
      }
    }

    /** `process_mode_adjustment`; its clearing loop is the one of `clear_leds`. */
    method ProcessModeAdjustment(data: i32) returns (calls: seq<LedCall>)
      modifies this
      ensures (Model(), calls) == ModeAdjust(old(Model()), data)
    {
      if data != 0 {
        animationType := Normalize(WrapI8(animationType as int + data as int), ANIMATION_TYPES);
      }
      calls := ClearLeds();
      calls := calls + [SetLed(WrapU8(animationType as int), FULL)];
    }

    /** `process_mode`. */
    method ProcessMode(data: i32) returns (calls: seq<LedCall>)
      modifies this
      ensures (Model(), calls) == Mode(old(Model()), data)
    {
      if mode == 0 {
        calls := ProcessNormal(data);
      } else if mode == 1 {
        calls := ProcessModeAdjustment(data);
      } else {
        calls := [];
      }
    }

    /** The command switch of `controller_tick`: command 0 runs the mode with the value of
        the first four command bytes, command 1 switches mode. */
    method RunCommand(command: u8) returns (calls: seq<LedCall>)
      requires commandBuffer.Length == EncoderComms.COMMS_BUFF_SIZE
      modifies this
      ensures (Model(), calls) == CommandStep(old(Model()), command, commandBuffer[..])
    {
      calls := [];
      if command == 0 {
        var commandValue := WrapI32(((commandBuffer[0] as int * 0x100 + commandBuffer[1] as int) * 0x100 +
                                     commandBuffer[2] as int) * 0x100 + commandBuffer[3] as int);
        assert commandValue == CommandValue(commandBuffer[..]);
        calls := ProcessMode(commandValue);
      } else if command == 1 {
        calls := ProcessSwitchMode();
      }
    }

    /** `controller_tick`: tick the encoder, take its clicks and delta, hand them to the bus,
        switch mode on a click, run the mode, then read the bus command into `command` and the
        command buffer and act on it. The clicks, delta and command are returned as well. The
        LED array receives the calls in the order they are made; nothing else touches it during
        the tick. */
    method Tick(encoder: Encoder.EncoderDriver, comms: EncoderComms.CommsDriver, leds: LedArray.LedArrayDriver)
      returns (clicks: u8, encoderData: i32, command: u8, calls: seq<LedCall>)
      requires Valid() && comms.Valid() && leds.Valid()
      requires comms.size as nat <= EncoderComms.COMMS_BUFF_SIZE && commandBuffer != comms.buffer
      modifies this, encoder, comms, commandBuffer, leds.directions
      ensures Valid() && comms.Valid() && OnRing(calls)
      ensures clicks == Encoder.TakeClicks(Encoder.Ticked(old(encoder.Model()))).1
      ensures (encoder.Model(), encoderData) == Encoder.TakeIncrement(Encoder.TakeClicks(Encoder.Ticked(old(encoder.Model()))).0)
      ensures comms.Model() == EncoderComms.Updated(old(comms.Model()), clicks as u32, encoderData)
      ensures (command, commandBuffer[..comms.size]) == EncoderComms.Command(comms.Model())
      ensures commandBuffer[comms.size..] == old(commandBuffer[comms.size..])
      ensures (Model(), calls) == TickStep(old(Model()), clicks, encoderData, command, commandBuffer[..])
      ensures leds.directions[..] == Directions(old(leds.directions[..]), calls)
    {
      ghost var start := Model();
      clicks, encoderData := TakeInput(encoder, comms);
      calls := [];
      if clicks != 0 {
        calls := ProcessSwitchMode();
      }
      var moded := ProcessMode(encoderData);
      calls := calls + moded;
      command := comms.GetCommand(commandBuffer);
      var commanded := RunCommand(command);
      calls := calls + commanded;
      TickStepWellFormed(start, clicks, encoderData, command, commandBuffer[..]);
      ShowCalls(leds, calls);
    }
  }

  /** The encoder and bus part of `controller_tick`: tick the encoder, take its clicks and
      delta, and add them to what the bus reports. */
  method TakeInput(encoder: Encoder.EncoderDriver, comms: EncoderComms.CommsDriver) returns (clicks: u8, encoderData: i32)
    modifies encoder, comms
    ensures clicks == Encoder.TakeClicks(Encoder.Ticked(old(encoder.Model()))).1
    ensures (encoder.Model(), encoderData) == Encoder.TakeIncrement(Encoder.TakeClicks(Encoder.Ticked(old(encoder.Model()))).0)
    ensures comms.Model() == EncoderComms.Updated(old(comms.Model()), clicks as u32, encoderData)
  {
    encoder.Tick();
    clicks := encoder.GetClicks();
    encoderData := encoder.GetIncrement();
    comms.Update(clicks as u32, encoderData);
  }
}
