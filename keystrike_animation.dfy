/** The per-key colour animations of the illuminator crate (keystrike_animation.rs). Each is a
    pure function of the key's `data` word and the milliseconds `duration` it has spent in its
    state: a struck key fades from a strike colour into a sustain colour and then swings between
    two sustain colours every second; a released key fades its last colour to black in one
    second; a radiant neighbour shows a fixed colour chosen by its hop level. */
module KeystrikeAnimation {
  import opened Prelude
  import opened IlluminatorData

  const NORMAL_STRIKE_COLOR: Rgb := Rgb(0, 255, 0)
  const NORMAL_SUSTAIN_COLOR_1: Rgb := Rgb(0, 64, 0)
  const NORMAL_SUSTAIN_COLOR_2: Rgb := Rgb(32, 32, 0)
  const OCTAVE_STRIKE_COLOR: Rgb := Rgb(0, 64, 255)
  const OCTAVE_SELECTED_COLOR_1: Rgb := Rgb(0, 0, 32)
  const OCTAVE_SELECTED_COLOR_2: Rgb := Rgb(16, 16, 48)

  /** Milliseconds of the strike phase, and of each half-swing of the sustain phase. */
  const SUSTAIN_DURATION: u32 := 1000
  /** Milliseconds a released key takes to fade to black. */
  const FADE_DURATION: u32 := 1000

  /** Colour of a radiant key, by hop level. */
  const NEIGHBOR_COLORS: seq<Rgb> := [Rgb(17, 64, 4), Rgb(239, 64, 161), Rgb(128, 255, 219)]

  /** Each channel of `c` lies between the corresponding channels of `a` and `b`. */
  predicate Between(c: Rgb, a: Rgb, b: Rgb) {
    Min(a.r, b.r) <= c.r <= Max(a.r, b.r) &&
    Min(a.g, b.g) <= c.g <= Max(a.g, b.g) &&
    Min(a.b, b.b) <= c.b <= Max(a.b, b.b)
  }

  /** The swing after the strike phase: `elapsed` milliseconds past it, the colour moves from
      `first` to `second` during even seconds and back during odd ones, one percent per 10 ms. */
  function Swing(first: Rgb, second: Rgb, elapsed: u32): (r: Rgb)
    ensures Between(r, first, second)
    ensures elapsed % 2000 == 0 ==> r == first
    ensures elapsed % 2000 == 1000 ==> r == second
  {
    SwingPhase(elapsed);
    var percent := Min(100, (elapsed % SUSTAIN_DURATION) / 10);
    if elapsed / 1000 % 2 == 0 then Fade(first, second, percent) else Fade(second, first, percent)
  }

  /** Where `e` falls in the two-second swing: the second it is in, and how far into it. */
  lemma SwingPhase(e: nat)
    ensures e % 1000 < 1000 && (e % 1000) / 10 < 100
    ensures e % 2000 == 0 ==> e % 1000 == 0 && e / 1000 % 2 == 0
    ensures e % 2000 == 1000 ==> e % 1000 == 0 && e / 1000 % 2 == 1
  {
    var q := e / 2000;
    var m := e % 2000;
    assert e == 2000 * q + m;
    if m == 0 {
      assert e == 1000 * (2 * q);
    } else if m == 1000 {
      assert e == 1000 * (2 * q + 1);
    }
  }

  /** Shifting by two seconds changes nothing in the swing. */
  lemma SwingShift(e: nat)
    ensures (e + 2000) % 1000 == e % 1000
    ensures (e + 2000) / 1000 % 2 == e / 1000 % 2
  {
    assert (e + 2000) / 1000 == e / 1000 + 2;
  }

  /** `keypress_compute`: the strike colour fading into the first sustain colour over the first
      second, then the swing between the two sustain colours. */
  function KeypressCompute(strike: Rgb, sustain1: Rgb, sustain2: Rgb, data: u32, duration: u32): (r: Rgb)
    ensures duration == 0 ==> r == strike
    ensures duration < SUSTAIN_DURATION ==> Between(r, strike, sustain1)
    ensures duration >= SUSTAIN_DURATION ==> Between(r, sustain1, sustain2)
  {
    if duration < SUSTAIN_DURATION then Fade(strike, sustain1, Min(100, (duration / 10) as u8))
    else Swing(sustain1, sustain2, duration - SUSTAIN_DURATION)
  }

  /** Past the strike phase the animation repeats every two seconds. */
  lemma KeypressPeriodic(strike: Rgb, sustain1: Rgb, sustain2: Rgb, data: u32, duration: u32)
    requires SUSTAIN_DURATION <= duration && duration as int + 2000 <= U32_MAX
    ensures KeypressCompute(strike, sustain1, sustain2, data, duration + 2000) ==
            KeypressCompute(strike, sustain1, sustain2, data, duration)
  {
    SwingShift(duration - SUSTAIN_DURATION);
  }

  /** The strike phase ends where the swing starts: at one second the colour is the first
      sustain colour, approached from the strike colour one percent per 10 ms. */
  lemma KeypressJoins(strike: Rgb, sustain1: Rgb, sustain2: Rgb, data: u32)
    ensures KeypressCompute(strike, sustain1, sustain2, data, SUSTAIN_DURATION) == sustain1
    ensures KeypressCompute(strike, sustain1, sustain2, data, 990) == Fade(strike, sustain1, 99)
  {
  }

  /** `NormalKeyPressAnimation::compute`. */
  function NormalKeyPress(data: u32, duration: u32): (r: Rgb)
    ensures duration == 0 ==> r == NORMAL_STRIKE_COLOR
    ensures duration >= SUSTAIN_DURATION ==> Between(r, NORMAL_SUSTAIN_COLOR_1, NORMAL_SUSTAIN_COLOR_2)
  {
    KeypressCompute(NORMAL_STRIKE_COLOR, NORMAL_SUSTAIN_COLOR_1, NORMAL_SUSTAIN_COLOR_2, data, duration)
  }

  /** `OctaveKeyPressAnimation::compute`: an octave key swings between the selected-octave
      colours. */
  function OctaveKeyPress(data: u32, duration: u32): (r: Rgb)
    ensures duration == 0 ==> r == OCTAVE_STRIKE_COLOR
    ensures duration >= SUSTAIN_DURATION ==> Between(r, OCTAVE_SELECTED_COLOR_1, OCTAVE_SELECTED_COLOR_2)
  {
    KeypressCompute(OCTAVE_STRIKE_COLOR, OCTAVE_SELECTED_COLOR_1, OCTAVE_SELECTED_COLOR_2, data, duration)
  }

  /** `SelectedOctaveAnimation::compute`: the first selected colour for a second, then the
      swing between the two selected colours. */
  function SelectedOctave(data: u32, duration: u32): (r: Rgb)
    ensures duration <= SUSTAIN_DURATION ==> r == OCTAVE_SELECTED_COLOR_1
    ensures Between(r, OCTAVE_SELECTED_COLOR_1, OCTAVE_SELECTED_COLOR_2)
  {
    if duration < SUSTAIN_DURATION then OCTAVE_SELECTED_COLOR_1
    else Swing(OCTAVE_SELECTED_COLOR_1, OCTAVE_SELECTED_COLOR_2, duration - SUSTAIN_DURATION)
  }

  /** The selected-octave values the crate's tests expect at 0, 1000, 1500 and 2000 ms. */
  lemma SelectedOctaveTimeline()
    ensures SelectedOctave(0, 0) == OCTAVE_SELECTED_COLOR_1
    ensures SelectedOctave(0, 1000) == OCTAVE_SELECTED_COLOR_1
    ensures SelectedOctave(0, 1500) == Fade(OCTAVE_SELECTED_COLOR_1, OCTAVE_SELECTED_COLOR_2, 50)
    ensures SelectedOctave(0, 2000) == OCTAVE_SELECTED_COLOR_2
  {
    assert Swing(OCTAVE_SELECTED_COLOR_1, OCTAVE_SELECTED_COLOR_2, 500) ==
      Fade(OCTAVE_SELECTED_COLOR_1, OCTAVE_SELECTED_COLOR_2, 50);
  }

  /** `KeyFadeAnimation::is_complete`. */
  predicate FadeComplete(duration: u32) {
    duration > FADE_DURATION
  }

  /** `KeyFadeAnimation::compute`: the colour packed in `data`, `duration / 10` percent of the way
      to black. The percentage is the quotient truncated to 8 bits before it is capped. */
  function KeyFade(data: u32, duration: u32): (r: Rgb)
    ensures Between(r, Deserialize(data), BLACK)
    ensures duration < 10 ==> r == Deserialize(data)
    ensures 1000 <= duration < 2560 ==> r == BLACK
  {
    Fade(Deserialize(data), BLACK, Min(100, WrapU8(duration as int / 10)))
  }

  /** Until the fade is complete it only darkens, never goes past black, and reaches black at
      `FADE_DURATION`; one past it, the 8-bit truncation of the percentage shows. */
  lemma KeyFadeDarkens(data: u32, duration: u32)
    requires !FadeComplete(duration)
    ensures var c, o := KeyFade(data, duration), Deserialize(data);
      c.r <= o.r && c.g <= o.g && c.b <= o.b
    ensures duration == FADE_DURATION ==> KeyFade(data, duration) == BLACK
    ensures KeyFade(data, 2560) == Deserialize(data)
  {
  }

  /** The values the crate's tests expect for packed full red (0xFF, see `PackedRed`):
      unchanged at 0 ms and black at 1000 ms ... */
  lemma KeyFadeTimeline(red: u32)
    requires red == 0xFF
    ensures KeyFade(red, 0) == Rgb(255, 0, 0)
    ensures KeyFade(red, FADE_DURATION) == BLACK
  {
    assert Deserialize(red) == Rgb(255, 0, 0);
  }

  /** Before the fade completes the percentage is exactly `duration / 10`: the 8-bit truncation
      never applies. */
  lemma KeyFadeBeforeComplete(data: u32, duration: u32)
    requires !FadeComplete(duration)
    ensures KeyFade(data, duration) == Fade(Deserialize(data), BLACK, (duration / 10) as u8)
  {
  }

  /** ... and so half red at 500 ms, since half of full red is 127. */
  lemma FadeRedHalfway()
    ensures Fade(Rgb(255, 0, 0), BLACK, 50) == Rgb(127, 0, 0)
  {
    assert FadeChannel(255, 0, 50) == 127;
    assert FadeChannel(0, 0, 50) == 0;
  }

  lemma PackedRed()
    ensures Serialize(Rgb(255, 0, 0)) == 0xFF
  {
  }

  /** `KeyRadiantAnimation::compute`: the neighbour colour of hop level `data`, black beyond
      level 2; the time in the state does not matter. */
  function KeyRadiant(data: u32, duration: u32): (r: Rgb)
    ensures data < 3 ==> r == NEIGHBOR_COLORS[data]
    ensures data >= 3 ==> r == BLACK
  {
    match data
    case 0 | 1 | 2 => NEIGHBOR_COLORS[data]
    case _ => BLACK
  }
}
