/** The pattern illuminator (pattern_illuminator.rs): once no key has been held for more than ten
    seconds, the keyboard shows a rainbow that drifts by one hue step every 20 ms. The colour
    conversion `hsv2rgb` belongs to a foreign crate and is taken as a parameter. */
module Pattern {
  import opened Prelude
  import opened IlluminatorData
  import KeyboardMatrix

  /** Idle milliseconds after which the pattern is shown. */
  const IDLE_THRESHOLD: u32 := 10000
  /** Milliseconds of one pass of the pattern. */
  const PATTERN_PERIOD: u32 := 5000

  datatype Hsv = Hsv(hue: u8, sat: u8, val: u8)

  /** `u32::saturating_add`. */
  function SaturatingAdd(a: u32, b: u32): (r: u32)
    ensures a as int + b as int <= U32_MAX ==> r as int == a as int + b as int
    ensures a as int + b as int > U32_MAX ==> r == U32_MAX as u32
    ensures r >= a && r >= b
  {
    if a as int + b as int <= U32_MAX then a + b else U32_MAX as u32
  }

  /** The idle time after a tick of `deltaT` milliseconds with `depressedCount` keys held. */
  function IdleAfter(idle: u32, deltaT: u32, depressedCount: u8): (r: u32)
    ensures depressedCount != 0 ==> r == 0
    ensures depressedCount == 0 ==> r >= idle && r >= deltaT
  {
    if depressedCount == 0 then SaturatingAdd(idle, deltaT) else 0
  }

  /** Once shown, the pattern stays until a key is held: the idle time saturates instead of
      wrapping back below the threshold. */
  lemma PatternPersists(idle: u32, deltaT: u32)
    requires idle > IDLE_THRESHOLD
    ensures IdleAfter(idle, deltaT, 0) > IDLE_THRESHOLD
    ensures IdleAfter(U32_MAX as u32, deltaT, 0) == U32_MAX as u32
  {
  }

  /** The hue of LED `index` when the keyboard has been idle `idle` milliseconds. */
  function Hue(index: nat, idle: u32): (h: u8)
    requires index < NUM_KEYS
    ensures h < 255
  {
    ((index * 13 + (idle % PATTERN_PERIOD) / 20) % 255) as u8
  }

  /** Adjacent LEDs are 13 hue steps apart. */
  lemma HueNeighbors(index: nat, idle: u32)
    requires index + 1 < NUM_KEYS
    ensures Hue(index + 1, idle) as int == (Hue(index, idle) as int + 13) % 255
  {
  }

  /** Within one pass of the pattern, every LED moves one hue step per 20 ms. */
  lemma HueAdvances(index: nat, idle: u32)
    requires index < NUM_KEYS && idle as int + 20 <= U32_MAX
    requires idle % PATTERN_PERIOD < PATTERN_PERIOD - 20
    ensures Hue(index, idle + 20) as int == (Hue(index, idle) as int + 1) % 255
  {
    var m := idle % PATTERN_PERIOD;
    assert (idle + 20) % PATTERN_PERIOD == m + 20 by {
      var q := idle / PATTERN_PERIOD;
      assert idle + 20 == PATTERN_PERIOD * q + (m + 20);
    }
    var h := index * 13 + m / 20;
    assert Hue(index, idle + 20) as int == (h + 1) % 255 by {
      assert (m + 20) / 20 == m / 20 + 1;
    }
    assert Hue(index, idle) as int == h % 255;
    NextHue(h);
  }

  lemma NextHue(h: nat)
    ensures (h % 255 + 1) % 255 == (h + 1) % 255
  {
  }

  class PatternIlluminator {
    var idleTimeMs: u32

    /** `new`: not idle yet. */
    constructor()
      ensures idleTimeMs == 0
    {
      idleTimeMs := 0;
    }

    /** `update`: count idle time while no key is held, restart from zero otherwise. */
    method Update(deltaT: u32, keyboard: KeyboardMatrix.KeyboardState)
      modifies this
      ensures idleTimeMs == IdleAfter(old(idleTimeMs), deltaT, keyboard.depressedCount)
    {
      if keyboard.depressedCount == 0 {
        idleTimeMs := SaturatingAdd(idleTimeMs, deltaT);
      } else {
        idleTimeMs := 0;
      }
    }

    /** `render`: past the idle threshold every LED shows its pattern hue at full saturation and
        value; before it the frame is left as it is. */
    method Render(leds: array<Rgb>, hsv2rgb: Hsv -> Rgb)
      requires leds.Length == NUM_KEYS
      modifies leds
      ensures idleTimeMs <= IDLE_THRESHOLD ==> leds[..] == old(leds[..])
      ensures idleTimeMs > IDLE_THRESHOLD ==>
        forall i :: 0 <= i < NUM_KEYS ==> leds[i] == hsv2rgb(Hsv(Hue(i, idleTimeMs), 255, 255))
    {
      if idleTimeMs > IDLE_THRESHOLD {
        var patternOffset := (idleTimeMs % PATTERN_PERIOD) / 20;
        var index := 0;
        while index < NUM_KEYS
          invariant 0 <= index <= NUM_KEYS
          invariant forall i :: 0 <= i < index ==> leds[i] == hsv2rgb(Hsv(Hue(i, idleTimeMs), 255, 255))
        {
          var h := ((index * 13) as u32 + patternOffset) % 255;
          leds[index] := hsv2rgb(Hsv(h as u8, 255, 255));
          index := index + 1;
        }
      }
    }
  }
}
