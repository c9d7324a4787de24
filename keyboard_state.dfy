/** The debounced state of the 21-key matrix (`KeyboardState` in the keyboard_matrix crate).
    Each scan produces raw key levels; `BuildNew` accepts a changed level only when that key's
    debounce counter has run out, reloads the counter on an accepted change, counts every
    counter down, and records which keys were newly pressed or released. */
module KeyboardMatrix {
  import opened Prelude

  const NUM_KEYS: nat := 21
  /** Scans a key is held after an accepted change. */
  const DEBOUNCE_COUNTER: u8 := 100

  /** Number of `true` entries of `s`. */
  function CountTrue(s: seq<bool>): (r: nat)
    ensures r <= |s|
  {
    if s == [] then 0 else CountTrue(s[..|s| - 1]) + (if s[|s| - 1] then 1 else 0)
  }

  /** The new debounced level of one key: a differing input is accepted only when the key's
      counter is zero. */
  function DebouncedKey(previous: bool, counter: u8, input: bool): (r: bool)
    ensures r != previous <==> input != previous && counter == 0
    ensures r == previous || r == input
  {
    if input != previous && counter == 0 then input else previous
  }

  /** The key's counter after one scan: reloaded on an accepted change, then counted down
      without going below zero. */
  function NextCounter(previous: bool, counter: u8, input: bool): (r: u8)
    ensures input != previous && counter == 0 ==> r == DEBOUNCE_COUNTER - 1
    ensures !(input != previous && counter == 0) ==> r == if counter > 0 then counter - 1 else 0
    ensures r < DEBOUNCE_COUNTER || r < counter
  {
    var loaded := if input != previous && counter == 0 then DEBOUNCE_COUNTER else counter;
    if loaded > 0 then loaded - 1 else 0
  }

  /** The body of the per-key debounce loop. */
  method DebounceKey(previous: bool, counter: u8, input: bool) returns (level: bool, next: u8)
    ensures level == DebouncedKey(previous, counter, input)
    ensures next == NextCounter(previous, counter, input)
  {
    level, next := previous, counter;
    if input != previous {
      if counter == 0 {
        level := input;
        next := DEBOUNCE_COUNTER;
      }
    }
    if next > 0 {
      next := next - 1;
    }
  }

  datatype KeyboardState = KeyboardState(
    state: seq<bool>,
    debounceCounter: seq<u8>,
    pressed: seq<bool>,
    released: seq<bool>,
    depressedCount: u8,
    pressedCount: u8,
    releasedCount: u8)
  {
    /** Every per-key array has one entry per key. */
    predicate WellFormed() {
      |state| == NUM_KEYS && |debounceCounter| == NUM_KEYS &&
      |pressed| == NUM_KEYS && |released| == NUM_KEYS
    }

    /** `build_new`: one debounce step on the raw levels `newState`; `this` is left as it is
        (the result is a new value). */
    method BuildNew(newState: seq<bool>) returns (r: KeyboardState)
      requires WellFormed() && |newState| == NUM_KEYS
      ensures r.WellFormed()
      ensures forall i :: 0 <= i < NUM_KEYS ==>
        r.state[i] == DebouncedKey(state[i], debounceCounter[i], newState[i]) &&
        r.debounceCounter[i] == NextCounter(state[i], debounceCounter[i], newState[i])
      ensures forall i :: 0 <= i < NUM_KEYS ==>
        (r.pressed[i] <==> r.state[i] && !state[i]) && (r.released[i] <==> !r.state[i] && state[i])
      ensures r.pressedCount as nat == CountTrue(r.pressed)
      ensures r.releasedCount as nat == CountTrue(r.released)
      ensures r.depressedCount as nat == CountTrue(r.state)
    {
      var debounced: seq<bool> := [];
      var counters: seq<u8> := [];
      var pressedNow: seq<bool> := [];
      var releasedNow: seq<bool> := [];
      var depressed, pressedN, releasedN := 0, 0, 0;
      var i := 0;
      while i < NUM_KEYS
        invariant 0 <= i <= NUM_KEYS
        invariant |debounced| == i
        invariant ScannedPrefix(this, newState, debounced, counters, pressedNow, releasedNow)
        invariant depressed == CountTrue(debounced)
        invariant pressedN == CountTrue(pressedNow)
        invariant releasedN == CountTrue(releasedNow)
      {
        var level, counter := DebounceKey(state[i], debounceCounter[i], newState[i]);
        var isPressed := level && !state[i];
        var isReleased := !level && state[i];
        pressedN := pressedN + (if isPressed then 1 else 0);
        releasedN := releasedN + (if isReleased then 1 else 0);
        depressed := depressed + (if level then 1 else 0);
        ScannedPrefixSnoc(this, newState, debounced, counters, pressedNow, releasedNow, level, counter);
        CountTrueSnoc(debounced, level);
        CountTrueSnoc(pressedNow, isPressed);
        CountTrueSnoc(releasedNow, isReleased);
        debounced, counters := debounced + [level], counters + [counter];
        pressedNow, releasedNow := pressedNow + [isPressed], releasedNow + [isReleased];
        i := i + 1;
      }
      r := KeyboardState(debounced, counters, pressedNow, releasedNow, depressed, pressedN, releasedN);
    }
  }

  /** The first `|debounced|` keys of a `build_new` scan of `prev` on input `newState` are done. */
  ghost predicate ScannedPrefix(prev: KeyboardState, newState: seq<bool>, debounced: seq<bool>,
                                counters: seq<u8>, pressedNow: seq<bool>, releasedNow: seq<bool>)
    requires prev.WellFormed() && |newState| == NUM_KEYS
  {
    |debounced| <= NUM_KEYS && |counters| == |debounced| &&
    |pressedNow| == |debounced| && |releasedNow| == |debounced| &&
    forall j :: 0 <= j < |debounced| ==>
      debounced[j] == DebouncedKey(prev.state[j], prev.debounceCounter[j], newState[j]) &&
      counters[j] == NextCounter(prev.state[j], prev.debounceCounter[j], newState[j]) &&
      (pressedNow[j] <==> debounced[j] && !prev.state[j]) &&
      (releasedNow[j] <==> !debounced[j] && prev.state[j])
  }

  lemma ScannedPrefixSnoc(prev: KeyboardState, newState: seq<bool>, debounced: seq<bool>,
                          counters: seq<u8>, pressedNow: seq<bool>, releasedNow: seq<bool>,
                          level: bool, counter: u8)
    requires prev.WellFormed() && |newState| == NUM_KEYS
    requires ScannedPrefix(prev, newState, debounced, counters, pressedNow, releasedNow)
    requires |debounced| < NUM_KEYS
    requires level == DebouncedKey(prev.state[|debounced|], prev.debounceCounter[|debounced|], newState[|debounced|])
    requires counter == NextCounter(prev.state[|debounced|], prev.debounceCounter[|debounced|], newState[|debounced|])
    ensures ScannedPrefix(prev, newState, debounced + [level], counters + [counter],
                          pressedNow + [level && !prev.state[|debounced|]],
                          releasedNow + [!level && prev.state[|debounced|]])
  {
  }

  /** `KeyboardState::default`: nothing held, no counters running, no edges. */
  function Default(): (r: KeyboardState)
    ensures r.WellFormed()
    ensures r.depressedCount == 0 && r.pressedCount == 0 && r.releasedCount == 0
    ensures forall i :: 0 <= i < NUM_KEYS ==>
      !r.state[i] && !r.pressed[i] && !r.released[i] && r.debounceCounter[i] == 0
  {
    KeyboardState(seq(NUM_KEYS, _ => false), seq(NUM_KEYS, _ => 0), seq(NUM_KEYS, _ => false),
                  seq(NUM_KEYS, _ => false), 0, 0, 0)
  }

  /** An accepted change leaves the counter at 99, so the next 99 scans cannot flip the key
      back; a change seen while the counter runs is rejected and the old level kept. */
  lemma AcceptedChangeArmsCounter(previous: bool, counter: u8, input: bool)
    ensures input != previous && counter == 0 ==>
      DebouncedKey(previous, counter, input) == input &&
      NextCounter(previous, counter, input) == DEBOUNCE_COUNTER - 1
    ensures counter > 0 ==>
      DebouncedKey(previous, counter, input) == previous &&
      NextCounter(previous, counter, input) == counter - 1
    ensures input == previous && counter == 0 ==>
      DebouncedKey(previous, counter, input) == previous && NextCounter(previous, counter, input) == 0
  {
  }

  /** After a scan no key is both newly pressed and newly released, so at most 21 edges are
      reported in total, and every newly pressed key is among the held ones. */
  lemma EdgeCountsBounded(prev: KeyboardState, r: KeyboardState)
    requires prev.WellFormed() && r.WellFormed()
    requires forall i :: 0 <= i < NUM_KEYS ==>
      (r.pressed[i] <==> r.state[i] && !prev.state[i]) && (r.released[i] <==> !r.state[i] && prev.state[i])
    requires r.pressedCount as nat == CountTrue(r.pressed) && r.releasedCount as nat == CountTrue(r.released)
    requires r.depressedCount as nat == CountTrue(r.state)
    ensures r.pressedCount as nat + r.releasedCount as nat <= NUM_KEYS
    ensures r.pressedCount <= r.depressedCount
  {
    CountTrueDisjoint(r.pressed, r.released);
    CountTrueMonotone(r.pressed, r.state);
  }

  lemma {:induction false} CountTrueDisjoint(a: seq<bool>, b: seq<bool>)
    requires |a| == |b|
    requires forall i :: 0 <= i < |a| ==> !(a[i] && b[i])
    ensures CountTrue(a) + CountTrue(b) <= |a|
  {
    if a != [] {
      CountTrueDisjoint(a[..|a| - 1], b[..|b| - 1]);
    }
  }

  lemma {:induction false} CountTrueMonotone(a: seq<bool>, b: seq<bool>)
    requires |a| == |b|
    requires forall i :: 0 <= i < |a| ==> a[i] ==> b[i]
    ensures CountTrue(a) <= CountTrue(b)
  {
    if a != [] {
      CountTrueMonotone(a[..|a| - 1], b[..|b| - 1]);
    }
  }

  /** The unit tests of the debounce step, on key 0. */
  method DebounceScenarios() returns (accepted: bool, armed: u8, rejected: bool, counted: u8, pressedCount: u8)
    ensures accepted && armed > 0 && !rejected && counted == 4 && pressedCount == 1
  {
    var initial := Default();
    var input := seq(NUM_KEYS, i => i == 0);
    var after := initial.BuildNew(input);
    accepted, armed, pressedCount := after.state[0], after.debounceCounter[0], after.pressedCount;
    assert after.pressed == input;
    assert CountTrue(input) == 1 by {
      assert input == [true] + seq(NUM_KEYS - 1, _ => false);
      CountTrueAllFalse(seq(NUM_KEYS - 1, _ => false));
      CountTrueAppendFront(true, seq(NUM_KEYS - 1, _ => false));
    }
    var held := initial.(debounceCounter := initial.debounceCounter[0 := 5]);
    var bounced := held.BuildNew(input);
    rejected := bounced.state[0];
    counted := bounced.debounceCounter[0];
  }

  lemma CountTrueSnoc(s: seq<bool>, b: bool)
    ensures CountTrue(s + [b]) == CountTrue(s) + (if b then 1 else 0)
  {
    assert (s + [b])[..|s|] == s;
  }

  lemma {:induction false} CountTrueAllFalse(s: seq<bool>)
    requires forall i :: 0 <= i < |s| ==> !s[i]
    ensures CountTrue(s) == 0
  {
    if s != [] {
      CountTrueAllFalse(s[..|s| - 1]);
    }
  }

  /** Counting is independent of where the first entry sits. */
  lemma {:induction false} CountTrueAppendFront(b: bool, s: seq<bool>)
    ensures CountTrue([b] + s) == CountTrue(s) + (if b then 1 else 0)
    decreases |s|
  {
    if s != [] {
      var t := [b] + s;
      assert t[..|t| - 1] == [b] + s[..|s| - 1];
      CountTrueAppendFront(b, s[..|s| - 1]);
    }
  }
}
