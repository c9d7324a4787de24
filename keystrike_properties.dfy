/** What one tick of the keystrike illuminator does to the keys: which keys a strike lights,
    how each key's own state machine moves, and the invariant that keeps the fade and radiant
    animations inside their intended ranges. */
module KeystrikeProperties {
  import opened Prelude
  import opened IlluminatorData
  import opened KeystrikeAnimation
  import opened Keystrike

  /** The level reported by the earliest call that names key `t`, if any call does. */
  function FirstLevel(calls: seq<(u8, u8)>, t: nat): (r: Option<u8>)
    ensures r.None? <==> forall c :: c in calls ==> c.0 as nat != t
    ensures r.Some? ==> exists i :: (0 <= i < |calls| && calls[i].0 as nat == t && calls[i].1 == r.value &&
      forall j :: 0 <= j < i ==> calls[j].0 as nat != t)
  {
    if calls == [] then None
    else
      var prefix := calls[..|calls| - 1];
      var p := FirstLevel(prefix, t);
      assert forall c :: c in prefix ==> c in calls;
      assert calls == prefix + [calls[|calls| - 1]];
      if p.Some? then p
      else if calls[|calls| - 1].0 as nat == t then Some(calls[|calls| - 1].1)
      else None
  }

  /** The walk's callback lights an `Off` key once, with the level of the first call naming it,
      and leaves every other key alone. */
  lemma {:induction false} RadiateAllEffect(keys: seq<KeyData>, calls: seq<(u8, u8)>, t: nat)
    requires forall c :: c in calls ==> (c.0 as nat) < |keys|
    requires t < |keys|
    ensures RadiateAll(keys, calls)[t] ==
      if keys[t].state == Off && FirstLevel(calls, t).Some?
      then KeyData(Radiant, FirstLevel(calls, t).value as u32, 0)
      else keys[t]
  {
    if calls != [] {
      var prefix := calls[..|calls| - 1];
      assert forall c :: c in prefix ==> c in calls;
      RadiateAllEffect(keys, prefix, t);
    }
  }

  /** Key `m` is a neighbour of a neighbour of `key`, other than `key` itself. */
  predicate TwoHopsAway(key: u8, m: u8)
    requires (key as nat) < NUM_KEYS
  {
    AdjacencyWellFormed();
    exists n :: SecondHop(ADJACENCY_BY_INDEX, key, n, m)
  }

  /** Key `t` is a neighbour of `key`, or two hops away from it. */
  predicate WithinTwoHops(key: u8, t: nat)
    requires (key as nat) < NUM_KEYS
  {
    t < NUM_KEYS && ((t as u8) in ADJACENCY_BY_INDEX[key] || TwoHopsAway(key, t as u8))
  }

  /** The walk made when `key` is struck names key `t` exactly when `t` is within two hops, and
      the first call naming it reports level 1 only for a neighbour and level 0 only for a key
      two hops away. */
  lemma StrikeLevels(key: u8, t: nat)
    requires (key as nat) < NUM_KEYS && t < NUM_KEYS
    ensures var first := FirstLevel(AdjacencyCalls(NO_NEIGHBOR, key, 1), t);
      (first.Some? <==> WithinTwoHops(key, t)) &&
      (first.Some? ==> first.value <= 1) &&
      (first == Some(1) ==> (t as u8) in ADJACENCY_BY_INDEX[key]) &&
      (first == Some(0) ==> TwoHopsAway(key, t as u8))
  {
    var calls := AdjacencyCalls(NO_NEIGHBOR, key, 1);
    var first := FirstLevel(calls, t);
    if first.Some? {
      var i :| 0 <= i < |calls| && calls[i].0 as nat == t && calls[i].1 == first.value;
      StrikeCalls(key, calls[i]);
    } else if WithinTwoHops(key, t) {
      if (t as u8) in ADJACENCY_BY_INDEX[key] {
        StrikeCalls(key, (t as u8, 1));
      } else {
        StrikeCalls(key, (t as u8, 0));
      }
      assert false;
    }
  }

  /** Striking `key` lights exactly the `Off` keys within two hops of it: each starts glowing with
      a fresh counter, at level 1 only if it is a neighbour and at level 0 only if it is two hops
      away. Every other key, the struck key included, is left as it was. */
  lemma StruckFromEffect(keys: seq<KeyData>, key: u8, t: nat)
    requires |keys| == NUM_KEYS && (key as nat) < NUM_KEYS && t < NUM_KEYS
    ensures var r := StruckFrom(keys, key)[t];
      (keys[t].state == Off && WithinTwoHops(key, t) ==>
        r.state == Radiant && r.counter == 0 && r.data <= 1 &&
        (r.data == 1 ==> (t as u8) in ADJACENCY_BY_INDEX[key]) &&
        (r.data == 0 ==> TwoHopsAway(key, t as u8))) &&
      (!(keys[t].state == Off && WithinTwoHops(key, t)) ==> r == keys[t])
  {
    RadiateAllEffect(keys, AdjacencyCalls(NO_NEIGHBOR, key, 1), t);
    StrikeLevels(key, t);
  }

  /** No key is within two hops of itself. */
  lemma NotWithinTwoHopsOfItself(key: u8)
    requires (key as nat) < NUM_KEYS
    ensures !WithinTwoHops(key, key as nat)
  {
    AdjacencyWellFormed();
  }

  /** A key either keeps its state, or was `Off` and starts glowing as some strike's neighbour. */
  predicate RadiatedOrSame(x: KeyData, y: KeyData) {
    y == x || (x.state == Off && y.state == Radiant && y.counter == 0 && y.data <= 1)
  }

  lemma RadiatedOrSameTransitive(x: KeyData, y: KeyData, z: KeyData)
    requires RadiatedOrSame(x, y) && RadiatedOrSame(y, z)
    ensures RadiatedOrSame(x, z)
  {
  }

  /** One loop iteration on key `i`: key `i` takes its own step, every other key at most starts
      glowing. */
  lemma KeyStepEffect(keys: seq<KeyData>, i: nat, held: seq<bool>, deltaT: u32, octave: u8, t: nat)
    requires |keys| == NUM_KEYS && i < NUM_KEYS && |held| == NUM_KEYS && t < NUM_KEYS
    ensures t == i ==> KeyStep(keys, i, held, deltaT, octave)[t] == OwnStep(keys[i], i, held[i], deltaT, octave)
    ensures t != i ==> RadiatedOrSame(keys[t], KeyStep(keys, i, held, deltaT, octave)[t])
  {
    var stepped := keys[i := OwnStep(keys[i], i, held[i], deltaT, octave)];
    if Strikes(keys[i], held[i]) {
      StruckFromEffect(stepped, i as u8, t);
      if t == i {
        NotWithinTwoHopsOfItself(i as u8);
      }
    }
  }

  /** Keys the loop has not reached yet have at most started glowing. */
  lemma {:induction false} StepsBefore(keys: seq<KeyData>, n: nat, held: seq<bool>, deltaT: u32, octave: u8, t: nat)
    requires |keys| == NUM_KEYS && n <= t < NUM_KEYS && |held| == NUM_KEYS
    ensures RadiatedOrSame(keys[t], StepsUpTo(keys, n, held, deltaT, octave)[t])
  {
    if n > 0 {
      var before := StepsUpTo(keys, n - 1, held, deltaT, octave);
      StepsBefore(keys, n - 1, held, deltaT, octave, t);
      KeyStepEffect(before, n - 1, held, deltaT, octave, t);
      RadiatedOrSameTransitive(keys[t], before[t], StepsUpTo(keys, n, held, deltaT, octave)[t]);
    }
  }

  /** Keys the loop has passed have at most started glowing since. */
  lemma {:induction false} StepsAfter(keys: seq<KeyData>, n: nat, m: nat, held: seq<bool>, deltaT: u32, octave: u8, t: nat)
    requires |keys| == NUM_KEYS && t < n <= m <= NUM_KEYS && |held| == NUM_KEYS
    ensures RadiatedOrSame(StepsUpTo(keys, n, held, deltaT, octave)[t], StepsUpTo(keys, m, held, deltaT, octave)[t])
  {
    if m > n {
      var before := StepsUpTo(keys, m - 1, held, deltaT, octave);
      StepsAfter(keys, n, m - 1, held, deltaT, octave, t);
      KeyStepEffect(before, m - 1, held, deltaT, octave, t);
      RadiatedOrSameTransitive(StepsUpTo(keys, n, held, deltaT, octave)[t], before[t],
        StepsUpTo(keys, m, held, deltaT, octave)[t]);
    }
  }

  /** The fate of key `i` over a whole tick: it may start glowing before the loop reaches it,
      then takes its own step, and may start glowing after that. */
  lemma KeyOutcome(keys: seq<KeyData>, held: seq<bool>, deltaT: u32, octave: u8, i: nat)
    requires |keys| == NUM_KEYS && |held| == NUM_KEYS && i < NUM_KEYS
    ensures var before := StepsUpTo(keys, i, held, deltaT, octave)[i];
      RadiatedOrSame(keys[i], before) &&
      RadiatedOrSame(OwnStep(before, i, held[i], deltaT, octave), StepsUpTo(keys, NUM_KEYS, held, deltaT, octave)[i])
  {
    StepsBefore(keys, i, held, deltaT, octave, i);
    var before := StepsUpTo(keys, i, held, deltaT, octave);
    KeyStepEffect(before, i, held, deltaT, octave, i);
    StepsAfter(keys, i + 1, NUM_KEYS, held, deltaT, octave, i);
  }

  /** A key other than the selected octave's, and not left selected from an earlier octave, is
      `Pressed` after the tick exactly when it is held. */
  lemma UpdatedPressedIffHeld(keys: seq<KeyData>, deltaT: u32, held: seq<bool>, octave: u8, i: nat)
    requires |keys| == NUM_KEYS && |held| == NUM_KEYS && 1 <= octave as int <= NUM_KEYS
    requires i < NUM_KEYS && i != octave as int - 1 && keys[i].state != Selected
    ensures Updated(keys, deltaT, held, octave)[i].state == Pressed <==> held[i]
  {
    KeyOutcome(MarkSelected(keys, octave), held, deltaT, octave, i);
  }

  /** A held key that was off is pressed with a fresh counter, even when an earlier key's strike
      lit it during the same tick. */
  lemma UpdatedStrikeStartsCounter(keys: seq<KeyData>, deltaT: u32, held: seq<bool>, octave: u8, i: nat)
    requires |keys| == NUM_KEYS && |held| == NUM_KEYS && 1 <= octave as int <= NUM_KEYS
    requires i < NUM_KEYS && i != octave as int - 1 && keys[i].state == Off && held[i]
    ensures Updated(keys, deltaT, held, octave)[i].state == Pressed
    ensures Updated(keys, deltaT, held, octave)[i].counter == 0
  {
    KeyOutcome(MarkSelected(keys, octave), held, deltaT, octave, i);
  }

  /** A released key starts fading from the colour it was showing, with a fresh counter. */
  lemma UpdatedReleaseFades(keys: seq<KeyData>, deltaT: u32, held: seq<bool>, octave: u8, i: nat)
    requires |keys| == NUM_KEYS && |held| == NUM_KEYS && 1 <= octave as int <= NUM_KEYS
    requires i < NUM_KEYS && i != octave as int - 1 && keys[i].state == Pressed && !held[i]
    ensures Updated(keys, deltaT, held, octave)[i] ==
      KeyData(Fade, Serialize(PixelOrBlack(i, keys[i])), 0)
  {
    KeyOutcome(MarkSelected(keys, octave), held, deltaT, octave, i);
  }

  /** The selected octave's key ends the tick selected, its time in the state advanced. */
  lemma UpdatedOctaveKey(keys: seq<KeyData>, deltaT: u32, held: seq<bool>, octave: u8)
    requires |keys| == NUM_KEYS && |held| == NUM_KEYS && 1 <= octave as int <= NUM_KEYS
    ensures var k := keys[octave - 1];
      Updated(keys, deltaT, held, octave)[octave - 1] ==
      KeyData(Selected, k.data, WrapU32(k.counter as int + deltaT as int))
  {
    KeyOutcome(MarkSelected(keys, octave), held, deltaT, octave, octave as nat - 1);
  }

  /** A key selected for an earlier octave starts fading, held or not. */
  lemma UpdatedDeselectedFades(keys: seq<KeyData>, deltaT: u32, held: seq<bool>, octave: u8, i: nat)
    requires |keys| == NUM_KEYS && |held| == NUM_KEYS && 1 <= octave as int <= NUM_KEYS
    requires i < NUM_KEYS && i != octave as int - 1 && keys[i].state == Selected
    ensures Updated(keys, deltaT, held, octave)[i].state == Fade
    ensures Updated(keys, deltaT, held, octave)[i].counter == 0
  {
    KeyOutcome(MarkSelected(keys, octave), held, deltaT, octave, i);
  }

  /** A key whose animation parameters are in range: a fading key has not passed the fade's
      length, and a glowing key's level is one the walk reports. */
  predicate KeyConsistent(k: KeyData) {
    (k.state == Fade ==> k.counter <= FADE_DURATION) &&
    (k.state == Radiant ==> k.data <= 1)
  }

  predicate Consistent(keys: seq<KeyData>) {
    forall i :: 0 <= i < |keys| ==> KeyConsistent(keys[i])
  }

  /** Freshly built keys are consistent. */
  lemma NewConsistent()
    ensures Consistent(seq(NUM_KEYS, _ => KEY_DATA_NEW))
  {
  }

  lemma KeyStepConsistent(keys: seq<KeyData>, i: nat, held: seq<bool>, deltaT: u32, octave: u8)
    requires |keys| == NUM_KEYS && i < NUM_KEYS && |held| == NUM_KEYS && Consistent(keys)
    ensures Consistent(KeyStep(keys, i, held, deltaT, octave))
  {
    forall t | 0 <= t < NUM_KEYS
      ensures KeyConsistent(KeyStep(keys, i, held, deltaT, octave)[t])
    {
      KeyStepEffect(keys, i, held, deltaT, octave, t);
    }
  }

  lemma {:induction false} StepsConsistent(keys: seq<KeyData>, n: nat, held: seq<bool>, deltaT: u32, octave: u8)
    requires |keys| == NUM_KEYS && n <= NUM_KEYS && |held| == NUM_KEYS && Consistent(keys)
    ensures Consistent(StepsUpTo(keys, n, held, deltaT, octave))
  {
    if n > 0 {
      var prev := StepsUpTo(keys, n - 1, held, deltaT, octave);
      StepsConsistent(keys, n - 1, held, deltaT, octave);
      KeyStepConsistent(prev, n - 1, held, deltaT, octave);
      assert StepsUpTo(keys, n, held, deltaT, octave) == KeyStep(prev, n - 1, held, deltaT, octave);
    }
  }

  /** Every tick keeps the keys consistent. */
  lemma UpdatedConsistent(keys: seq<KeyData>, deltaT: u32, held: seq<bool>, octave: u8)
    requires |keys| == NUM_KEYS && |held| == NUM_KEYS && 1 <= octave as int <= NUM_KEYS
    requires Consistent(keys)
    ensures Consistent(Updated(keys, deltaT, held, octave))
  {
    StepsConsistent(MarkSelected(keys, octave), NUM_KEYS, held, deltaT, octave);
  }

  /** On consistent keys, a fading key shows its colour exactly `counter / 10` percent of the
      way to black (the 8-bit truncation in `KeyFade` never applies), and a glowing key shows
      the neighbour colour of its level. */
  lemma ConsistentPixels(keyType: KeyType, k: KeyData)
    requires KeyConsistent(k)
    ensures k.state == Fade ==>
      ComputePixel(keyType, k) == Some(IlluminatorData.Fade(Deserialize(k.data), BLACK, (k.counter / 10) as u8))
    ensures k.state == Radiant ==> ComputePixel(keyType, k) == Some(NEIGHBOR_COLORS[k.data])
  {
    if k.state == Fade {
      KeyFadeBeforeComplete(k.data, k.counter);
    }
  }
}
