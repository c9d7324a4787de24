/** The keystrike illuminator (keystrike_illuminator.rs): a small state machine per key that
    lights a struck key, makes its neighbours within two hops glow, fades a released key to
    black, and marks the key of the selected octave. `Update` advances every key by one tick;
    `Render` writes the colour of every lit key into the LED frame. */
module Keystrike {
  import opened Prelude
  import opened IlluminatorData
  import opened KeystrikeAnimation
  import KeyboardMatrix

  datatype KeyType = Normal | Octave

  datatype KeyState = Off | Pressed | Selected | Fade | Radiant

  /** Per-key state: the animation state, an animation parameter (a packed colour for `Fade`,
      the hop level for `Radiant`) and the milliseconds spent in the state. */
  datatype KeyData = KeyData(state: KeyState, data: u32, counter: u32)

  /** `KeyData::new`. */
  const KEY_DATA_NEW: KeyData := KeyData(Off, 0, 0)

  /** Milliseconds after which an unheld radiant key starts fading. */
  const RADIANT_DURATION: u32 := 50

  /** `keytype_for_index`: the first row (keys 0..7) selects octaves. */
  function KeyTypeForIndex(keyIndex: nat): (t: KeyType)
    ensures t == Octave <==> keyIndex <= 7
  {
    if keyIndex <= 7 then Octave else Normal
  }

  /** `compute_pixel`: the animation of the key's state at the key's time in it; an `Off` key has
      no colour and leaves its LED as it is. */
  function ComputePixel(keyType: KeyType, k: KeyData): (r: Option<Rgb>)
    ensures r.None? <==> k.state == Off
    ensures k.state == Fade ==> r == Some(KeyFade(k.data, k.counter))
    ensures k.state == Radiant ==> r == Some(KeyRadiant(k.data, k.counter))
  {
    match k.state
    case Pressed =>
      (match keyType
       case Normal => Some(NormalKeyPress(k.data, k.counter))
       case Octave => Some(OctaveKeyPress(k.data, k.counter)))
    case Fade => Some(KeyFade(k.data, k.counter))
    case Radiant => Some(KeyRadiant(k.data, k.counter))
    case Selected => Some(SelectedOctave(k.data, k.counter))
    case Off => None
  }

  /** `compute_pixel_for_index` followed by `unwrap_or(RGB8::default())`: the colour a key shows
      at the moment it starts fading. */
  function PixelOrBlack(keyIndex: nat, k: KeyData): (c: Rgb)
    ensures k.state == Off ==> c == BLACK
  {
    match ComputePixel(KeyTypeForIndex(keyIndex), k)
    case Some(color) => color
    case None => BLACK
  }

  /** The state change that the update loop makes to key `keyIndex` itself, given whether the
      key is held and the selected octave. */
  function OwnStep(k: KeyData, keyIndex: nat, held: bool, deltaT: u32, octave: u8): (r: KeyData)
    ensures k.state != Selected ==> (r.state == Pressed <==> held)
    ensures r.state == Fade ==> r.counter <= FADE_DURATION
    ensures r.state == Radiant ==> k.state == Radiant && r.data == k.data
    ensures r.state == Selected <==> k.state == Selected && octave as int == keyIndex + 1
    ensures r.state == Off ==> !held && (k.state == Off || k.state == Fade)
  {
    var ticked := k.(counter := WrapU32(k.counter as int + deltaT as int));
    match k.state
    case Off => if held then k.(state := Pressed, counter := 0) else k
    case Pressed =>
      if !held then KeyData(Fade, Serialize(PixelOrBlack(keyIndex, k)), 0) else ticked
    case Fade =>
      if held then k.(state := Pressed)
      else if FadeComplete(ticked.counter) then ticked.(state := Off, counter := 0)
      else ticked
    case Radiant =>
      if held then k.(state := Pressed)
      else if k.counter > RADIANT_DURATION then KeyData(Fade, Serialize(PixelOrBlack(keyIndex, k)), 0)
      else ticked
    case Selected =>
      if octave as int != keyIndex + 1 then KeyData(Fade, Serialize(PixelOrBlack(keyIndex, k)), 0)
      else ticked
  }

  /** The key's own step lights its neighbours: a held key that was not already lit by a press. */
  predicate Strikes(k: KeyData, held: bool) {
    held && (k.state == Off || k.state == Fade || k.state == Radiant)
  }

  /** The callback passed to `adjacency_recursion`: an `Off` key starts glowing at `level`. */
  function Touch(keys: seq<KeyData>, call: (u8, u8)): (r: seq<KeyData>)
    requires (call.0 as nat) < |keys|
    ensures |r| == |keys|
  {
    if keys[call.0].state == Off then keys[call.0 := KeyData(Radiant, call.1 as u32, 0)] else keys
  }

  /** The callback applied to each call in order. */
  function RadiateAll(keys: seq<KeyData>, calls: seq<(u8, u8)>): (r: seq<KeyData>)
    requires forall c :: c in calls ==> (c.0 as nat) < |keys|
    ensures |r| == |keys|
  {
    if calls == [] then keys else Touch(RadiateAll(keys, calls[..|calls| - 1]), calls[|calls| - 1])
  }

  /** The neighbourhood lit when key `keyIndex` is struck. */
  function StruckFrom(keys: seq<KeyData>, keyIndex: u8): (r: seq<KeyData>)
    requires |keys| == NUM_KEYS && (keyIndex as nat) < NUM_KEYS
    ensures |r| == NUM_KEYS
  {
    RadiateAll(keys, AdjacencyCalls(NO_NEIGHBOR, keyIndex, 1))
  }

  /** One iteration of the update loop, on key `i`. */
  function KeyStep(keys: seq<KeyData>, i: nat, held: seq<bool>, deltaT: u32, octave: u8): (r: seq<KeyData>)
    requires |keys| == NUM_KEYS && i < NUM_KEYS && |held| == NUM_KEYS
    ensures |r| == NUM_KEYS
  {
    var stepped := keys[i := OwnStep(keys[i], i, held[i], deltaT, octave)];
    if Strikes(keys[i], held[i]) then StruckFrom(stepped, i as u8) else stepped
  }

  /** The first `n` iterations of the update loop. */
  function StepsUpTo(keys: seq<KeyData>, n: nat, held: seq<bool>, deltaT: u32, octave: u8): (r: seq<KeyData>)
    requires |keys| == NUM_KEYS && n <= NUM_KEYS && |held| == NUM_KEYS
    ensures |r| == NUM_KEYS
  {
    if n == 0 then keys else KeyStep(StepsUpTo(keys, n - 1, held, deltaT, octave), n - 1, held, deltaT, octave)
  }

  /** The key of the selected octave is marked before the loop; its other fields stay. */
  function MarkSelected(keys: seq<KeyData>, octave: u8): (r: seq<KeyData>)
    requires |keys| == NUM_KEYS && 1 <= octave as int <= NUM_KEYS
    ensures |r| == NUM_KEYS
  {
    keys[octave - 1 := keys[octave - 1].(state := Selected)]
  }

  /** `update`: the key states after one tick of `deltaT` milliseconds. */
  function Updated(keys: seq<KeyData>, deltaT: u32, held: seq<bool>, octave: u8): (r: seq<KeyData>)
    requires |keys| == NUM_KEYS && |held| == NUM_KEYS && 1 <= octave as int <= NUM_KEYS
    ensures |r| == NUM_KEYS
  {
    StepsUpTo(MarkSelected(keys, octave), NUM_KEYS, held, deltaT, octave)
  }

  class KeystrikeIlluminator {
    const keyData: array<KeyData>

    ghost predicate Valid()
      reads this
    {
      keyData.Length == NUM_KEYS
    }

    /** `new`: every key off. */
    constructor()
      ensures Valid() && fresh(keyData)
      ensures forall i :: 0 <= i < NUM_KEYS ==> keyData[i] == KEY_DATA_NEW
    {
      keyData := new KeyData[NUM_KEYS](_ => KEY_DATA_NEW);
    }

    /** `adjacency_recursion(255, keyIndex, 1, ..)` with the callback that lights `Off`
        neighbours: the walk's calls, applied in order. */
    method StrikeNeighbors(keyIndex: u8)
      requires Valid() && (keyIndex as nat) < NUM_KEYS
      modifies keyData
      ensures keyData[..] == StruckFrom(old(keyData[..]), keyIndex)
    {
      Radiate(AdjacencyCalls(NO_NEIGHBOR, keyIndex, 1));
    }

    /** The callback of the walk, applied to each call in order. */
    method Radiate(calls: seq<(u8, u8)>)
      requires Valid() && forall c :: c in calls ==> (c.0 as nat) < NUM_KEYS
      modifies keyData
      ensures keyData[..] == RadiateAll(old(keyData[..]), calls)
    {
      var j := 0;
      while j < |calls|
        invariant 0 <= j <= |calls|
        invariant keyData[..] == RadiateAll(old(keyData[..]), calls[..j])
      {
        var neighbor := calls[j].0;
        var level := calls[j].1;
        assert calls[..j + 1][..j] == calls[..j];
        if keyData[neighbor].state == Off {
          keyData[neighbor] := KeyData(Radiant, level as u32, 0);
        }
        j := j + 1;
      }
      assert calls[..|calls|] == calls;
    }

    /** `update`: mark the selected octave's key, then run every key's state machine in index
        order. `octave` is the note engine's octave, 1..21 (the source indexes the key array
        with `octave - 1`). */
    method Update(deltaT: u32, keyboard: KeyboardMatrix.KeyboardState, octave: u8)
      requires Valid() && keyboard.WellFormed() && 1 <= octave as int <= NUM_KEYS
      modifies keyData
      ensures keyData[..] == Updated(old(keyData[..]), deltaT, keyboard.state, octave)
    {
      keyData[octave - 1] := keyData[octave - 1].(state := Selected);
      ghost var marked := keyData[..];
      assert marked == MarkSelected(old(keyData[..]), octave);
      var keyIndex := 0;
      while keyIndex < NUM_KEYS
        invariant 0 <= keyIndex <= NUM_KEYS
        invariant keyData[..] == StepsUpTo(marked, keyIndex, keyboard.state, deltaT, octave)
      {
        UpdateKey(keyIndex, keyboard.state, deltaT, octave);
        keyIndex := keyIndex + 1;
      }
    }

    /** The body of the update loop for one key. */
    method UpdateKey(keyIndex: nat, held: seq<bool>, deltaT: u32, octave: u8)
      requires Valid() && keyIndex < NUM_KEYS && |held| == NUM_KEYS
      modifies keyData
      ensures keyData[..] == KeyStep(old(keyData[..]), keyIndex, held, deltaT, octave)
    {
      var k := keyData[keyIndex];
      match k.state {
        case Off =>
          if held[keyIndex] {
            keyData[keyIndex] := k.(state := Pressed, counter := 0);
            StrikeNeighbors(keyIndex as u8);
          }
        case Pressed =>
          if !held[keyIndex] {
            var previousColor := PixelOrBlack(keyIndex, k);
            keyData[keyIndex] := KeyData(Fade, Serialize(previousColor), 0);
          } else {
            keyData[keyIndex] := k.(counter := WrapU32(k.counter as int + deltaT as int));
          }
        case Fade =>
          if held[keyIndex] {
            keyData[keyIndex] := k.(state := Pressed);
            StrikeNeighbors(keyIndex as u8);
          } else {
            var counter := WrapU32(k.counter as int + deltaT as int);
            keyData[keyIndex] := k.(counter := counter);
            if FadeComplete(counter) {
              keyData[keyIndex] := k.(state := Off, counter := 0);
            }
          }
        case Radiant =>
          if held[keyIndex] {
            keyData[keyIndex] := k.(state := Pressed);
            StrikeNeighbors(keyIndex as u8);
          } else if k.counter > RADIANT_DURATION {
            var previousColor := PixelOrBlack(keyIndex, k);
            keyData[keyIndex] := KeyData(Fade, Serialize(previousColor), 0);
          } else {
            keyData[keyIndex] := k.(counter := WrapU32(k.counter as int + deltaT as int));
          }
        case Selected =>
          if octave as int != keyIndex + 1 {
            var previousColor := PixelOrBlack(keyIndex, k);
            keyData[keyIndex] := KeyData(Fade, Serialize(previousColor), 0);
          } else {
            keyData[keyIndex] := k.(counter := WrapU32(k.counter as int + deltaT as int));
          }
      }
    }

    /** `render`: every lit key's LED takes the key's colour; the LED of an `Off` key keeps
        whatever the frame held. */
    method Render(leds: array<Rgb>)
      requires Valid() && leds.Length == NUM_KEYS
      modifies leds
      ensures forall i :: 0 <= i < NUM_KEYS ==>
        leds[i] == (match ComputePixel(KeyTypeForIndex(i), keyData[i])
                    case Some(c) => c
                    case None => old(leds[i]))
    {
      var keyIndex := 0;
      while keyIndex < NUM_KEYS
        invariant 0 <= keyIndex <= NUM_KEYS
        invariant forall i :: 0 <= i < keyIndex ==>
          leds[i] == (match ComputePixel(KeyTypeForIndex(i), keyData[i])
                      case Some(c) => c
                      case None => old(leds[i]))
        invariant forall i :: keyIndex <= i < NUM_KEYS ==> leds[i] == old(leds[i])
      {
        var color := ComputePixel(KeyTypeForIndex(keyIndex), keyData[keyIndex]);
        if color.Some? {
          leds[keyIndex] := color.value;
        }
        keyIndex := keyIndex + 1;
      }
    }
  }
}
