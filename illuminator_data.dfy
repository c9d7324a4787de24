/** Colour helpers and the key-adjacency walk of the illuminator crate (data.rs).
    A colour is packed into 24 bits of a u32 for the per-key `data` word, faded linearly
    between two colours by a percentage, and raised channel by channel. The adjacency table
    lists the physical neighbours of each of the 21 keys; the walk reports neighbours up to a
    given depth to a callback. */
module IlluminatorData {
  import opened Prelude

  const NUM_KEYS: nat := 21
  /** Padding entry of the adjacency table. */
  const NO_NEIGHBOR: u8 := 255
  const NEIGHBOR_SLOTS: nat := 6

  /** `smart_leds::RGB8`. */
  datatype Rgb = Rgb(r: u8, g: u8, b: u8)

  /** `RGB8::default()`. */
  const BLACK: Rgb := Rgb(0, 0, 0)

  function Min(a: u8, b: u8): (r: u8)
    ensures r <= a && r <= b && (r == a || r == b)
  {
    if a < b then a else b
  }

  function Max(a: u8, b: u8): (r: u8)
    ensures r >= a && r >= b && (r == a || r == b)
  {
    if a > b then a else b
  }

  /** `serialize`: red in bits 0..7, green in 8..15, blue in 16..23. The three fields occupy
      disjoint bits, so the source's OR of shifted bytes is written as a sum (see `PackingBits`). */
  function Serialize(c: Rgb): (r: u32)
    ensures r < 0x100_0000
  {
    c.r + c.g * 0x100 + c.b * 0x1_0000
  }

  /** `deserialize`: the low three bytes of the word, masked and shifted (see `PackingBits`). */
  function Deserialize(data: u32): (r: Rgb)
    ensures Serialize(r) == data % 0x100_0000
  {
    LowBytes(data);
    Rgb(data % 0x100, (data / 0x100) % 0x100, (data / 0x1_0000) % 0x100)
  }

  /** A word's low 24 bits are its three low bytes, weighted. */
  lemma LowBytes(data: nat)
    ensures data % 0x100 + (data / 0x100) % 0x100 * 0x100 + (data / 0x1_0000) % 0x100 * 0x1_0000 ==
      data % 0x100_0000
  {
    var q := data / 0x1_0000;
    var w := data % 0x1_0000;
    assert data == q * 0x1_0000 + w;
    assert data / 0x100 == q * 0x100 + w / 0x100;
    assert (data / 0x100) % 0x100 == w / 0x100;
    assert data % 0x100 == w % 0x100;
    assert data % 0x100_0000 == (q % 0x100) * 0x1_0000 + w;
  }

  /** Packing loses nothing: every colour comes back from its packed word. */
  lemma SerializeRoundTrip(c: Rgb)
    ensures Deserialize(Serialize(c)) == c
  {
    var w := Serialize(c);
    assert w / 0x100 == c.g + c.b * 0x100;
    assert w / 0x1_0000 == c.b;
  }

  /** Distinct colours pack to distinct words. */
  lemma SerializeInjective(a: Rgb, b: Rgb)
    ensures Serialize(a) == Serialize(b) ==> a == b
  {
    SerializeRoundTrip(a);
    SerializeRoundTrip(b);
  }

  /** The arithmetic form of the packing agrees with the bit operations of the source on 32-bit
      words: OR of shifted bytes is their weighted sum, and mask-and-shift is division and
      remainder. */
  lemma PackingBits(r: bv32, g: bv32, b: bv32, data: bv32)
    requires r < 0x100 && g < 0x100 && b < 0x100
    ensures r | (g << 8) | (b << 16) == r + g * 0x100 + b * 0x1_0000
    ensures data & 0xFF == data % 0x100
    ensures (data >> 8) & 0xFF == (data / 0x100) % 0x100
    ensures (data >> 16) & 0xFF == (data / 0x1_0000) % 0x100
  {
  }

  /** One channel of `fade`: the weighted mean of `a` and `b`, `second` percent of the way to
      `b`. The u16 intermediate stays below 25500, so neither it nor the final u8 truncates. */
  function FadeChannel(a: u8, b: u8, second: nat): (r: u8)
    requires second <= 100
    ensures Min(a, b) <= r <= Max(a, b)
    ensures second == 0 ==> r == a
    ensures second == 100 ==> r == b
  {
    FadeChannelBounds(a, b, second);
    (a * (100 - second) + b * second) / 100
  }

  lemma FadeChannelBounds(a: u8, b: u8, second: nat)
    requires second <= 100
    ensures a * (100 - second) + b * second <= 25500
    ensures Min(a, b) as int * 100 <= a * (100 - second) + b * second <= Max(a, b) as int * 100
  {
    var lo, hi := Min(a, b) as int, Max(a, b) as int;
    var first := 100 - second;
    assert lo * first <= a * first <= hi * first by {
      MulMonotone(lo, a, first);
      MulMonotone(a, hi, first);
    }
    assert lo * second <= b * second <= hi * second by {
      MulMonotone(lo, b, second);
      MulMonotone(b, hi, second);
    }
    assert lo * first + lo * second == lo * 100;
    assert hi * first + hi * second == hi * 100;
    assert hi * 100 <= 25500;
  }

  lemma MulMonotone(x: int, y: int, k: nat)
    requires x <= y
    ensures x * k <= y * k
  {
  }

  /** `fade`: `percent` (capped at 100) of the way from `from` to `to`, channel by channel. */
  function Fade(from: Rgb, to: Rgb, percent: u8): (r: Rgb)
    ensures Min(from.r, to.r) <= r.r <= Max(from.r, to.r)
    ensures Min(from.g, to.g) <= r.g <= Max(from.g, to.g)
    ensures Min(from.b, to.b) <= r.b <= Max(from.b, to.b)
    ensures percent == 0 ==> r == from
    ensures percent >= 100 ==> r == to
  {
    var second := Min(percent, 100);
    Rgb(FadeChannel(from.r, to.r, second), FadeChannel(from.g, to.g, second),
        FadeChannel(from.b, to.b, second))
  }

  /** The colour `set_led_color` raises the pixel towards: keys of the first row (0..7) at half
      brightness. */
  function Dimmed(index: u8, color: Rgb): (r: Rgb)
    ensures index < 8 ==>
      color.r - 1 <= r.r * 2 <= color.r && color.g - 1 <= r.g * 2 <= color.g &&
      color.b - 1 <= r.b * 2 <= color.b
    ensures index >= 8 ==> r == color
  {
    if index < 8 then Rgb(color.r / 2, color.g / 2, color.b / 2) else color
  }

  /** The pixel after `set_led_color`: each channel is the larger of the old and the requested
      one. */
  function Raised(pixel: Rgb, index: u8, color: Rgb): (r: Rgb)
    ensures r.r >= pixel.r && r.g >= pixel.g && r.b >= pixel.b
    ensures var m := Dimmed(index, color);
      r.r >= m.r && r.g >= m.g && r.b >= m.b &&
      (r.r == pixel.r || r.r == m.r) && (r.g == pixel.g || r.g == m.g) && (r.b == pixel.b || r.b == m.b)
  {
    var m := Dimmed(index, color);
    Rgb(Max(pixel.r, m.r), Max(pixel.g, m.g), Max(pixel.b, m.b))
  }

  /** `set_led_color` on a pixel held by value: returns the raised pixel and whether a channel
      grew. */
  method SetLedColor(pixel: Rgb, index: u8, color: Rgb) returns (updated: Rgb, modified: bool)
    ensures updated == Raised(pixel, index, color)
    ensures modified <==> updated != pixel
  {
    var colorMod := if index < 8 then Rgb(color.r / 2, color.g / 2, color.b / 2) else color;
    updated := pixel;
    modified := false;
    if updated.r < colorMod.r {
      updated := updated.(r := colorMod.r);
      modified := true;
    }
    if updated.g < colorMod.g {
      updated := updated.(g := colorMod.g);
      modified := true;
    }
    if updated.b < colorMod.b {
      updated := updated.(b := colorMod.b);
      modified := true;
    }
  }

  /** Raising is idempotent: the same request a second time modifies nothing. */
  lemma RaisedIdempotent(pixel: Rgb, index: u8, color: Rgb)
    ensures Raised(Raised(pixel, index, color), index, color) == Raised(pixel, index, color)
  {
  }

  /** Physical neighbours of each key, padded with `NO_NEIGHBOR` to six slots. */
  const ADJACENCY_BY_INDEX: seq<seq<u8>> := [
    [1, 12, 255, 255, 255, 255],
    [0, 2, 12, 11, 255, 255],
    [1, 3, 11, 255, 255, 255],
    [2, 4, 10, 255, 255, 255],
    [3, 5, 10, 9, 255, 255],
    [4, 6, 9, 8, 255, 255],
    [5, 7, 8, 255, 255, 255],
    [6, 255, 255, 255, 255, 255],
    [5, 6, 9, 18, 19, 255],
    [4, 5, 10, 8, 17, 18],
    [3, 4, 9, 16, 17, 255],
    [1, 2, 12, 14, 15, 255],
    [0, 1, 11, 13, 14, 255],
    [12, 14, 255, 255, 255, 255],
    [12, 11, 13, 15, 255, 255],
    [11, 14, 16, 255, 255, 255],
    [10, 15, 17, 255, 255, 255],
    [10, 9, 16, 18, 255, 255],
    [9, 8, 17, 19, 255, 255],
    [8, 18, 20, 255, 255, 255],
    [19, 255, 255, 255, 255, 255]
  ]

  /** A table shaped like `ADJACENCY_BY_INDEX`: one row of six slots per key, each slot naming a
      key or padding. The walk below is defined over any such table so that its unfolding can be
      reasoned about one row at a time. */
  predicate IsAdjacencyTable(table: seq<seq<u8>>) {
    |table| == NUM_KEYS &&
    forall k :: 0 <= k < NUM_KEYS ==> (|table[k]| == NEIGHBOR_SLOTS &&
      forall j :: 0 <= j < NEIGHBOR_SLOTS ==> (table[k][j] as nat) < NUM_KEYS || table[k][j] == NO_NEIGHBOR)
  }

  /** The table has the expected shape, and no key is its own neighbour. */
  lemma AdjacencyWellFormed()
    ensures IsAdjacencyTable(ADJACENCY_BY_INDEX)
    ensures forall k, j :: 0 <= k < NUM_KEYS && 0 <= j < NEIGHBOR_SLOTS ==>
      ADJACENCY_BY_INDEX[k][j] as nat != k
  {
  }

  /** Neighbourhood is mutual: whenever key `k` lists key `n`, key `n` lists key `k`. */
  lemma AdjacencySymmetric(k: nat, j: nat)
    requires k < NUM_KEYS && j < NEIGHBOR_SLOTS && ADJACENCY_BY_INDEX[k][j] != NO_NEIGHBOR
    ensures (k as u8) in ADJACENCY_BY_INDEX[ADJACENCY_BY_INDEX[k][j]]
  {
    var n := ADJACENCY_BY_INDEX[k][j];
    assert n in ADJACENCY_BY_INDEX[k];
  }

  /** The callback invocations of `adjacency_recursion(previous, index, level, callback)`, in
      order: each (neighbour, level) pair passed to the callback. Every call names a key, at a
      level no deeper than the start. */
  function AdjacencyCalls(previous: u8, index: u8, level: u8): (r: seq<(u8, u8)>)
    requires (index as nat) < NUM_KEYS
    ensures forall c :: c in r ==> (c.0 as nat) < NUM_KEYS && c.1 <= level
  {
    AdjacencyWellFormed();
    Walk(ADJACENCY_BY_INDEX, previous, index, level)
  }

  /** `adjacency_recursion` over `table`: every reported key is a key, at a level no deeper than
      the start. */
  function Walk(table: seq<seq<u8>>, previous: u8, index: u8, level: u8): (r: seq<(u8, u8)>)
    requires IsAdjacencyTable(table) && (index as nat) < NUM_KEYS
    ensures forall c :: c in r ==> (c.0 as nat) < NUM_KEYS && c.1 <= level
    decreases level, NEIGHBOR_SLOTS + 1
  {
    WalkSlots(table, previous, index, level, 0)
  }

  /** The invocations made by slots `i..5` of `index`'s row. */
  function WalkSlots(table: seq<seq<u8>>, previous: u8, index: u8, level: u8, i: nat): (r: seq<(u8, u8)>)
    requires IsAdjacencyTable(table) && (index as nat) < NUM_KEYS && i <= NEIGHBOR_SLOTS
    ensures forall c :: c in r ==> (c.0 as nat) < NUM_KEYS && c.1 <= level
    decreases level, NEIGHBOR_SLOTS - i
  {
    if i == NEIGHBOR_SLOTS then []
    else
      var neighbor := table[index][i];
      var here :=
        if neighbor != NO_NEIGHBOR && neighbor != previous then
          [(neighbor, level)] + (if level > 0 then Walk(table, index, neighbor, level - 1) else [])
        else [];
      here + WalkSlots(table, previous, index, level, i + 1)
  }

  /** Slot `j` of `index`'s row names a neighbour that the walk reports: not padding and not the
      key the walk came from. */
  predicate Reports(table: seq<seq<u8>>, previous: u8, index: u8, j: nat)
    requires IsAdjacencyTable(table) && (index as nat) < NUM_KEYS
  {
    j < NEIGHBOR_SLOTS && table[index][j] != NO_NEIGHBOR && table[index][j] != previous
  }

  /** The walk reports exactly: each reported neighbour at the current level, and, below level 0,
      whatever the walk from that neighbour (coming from `index`) reports one level down. */
  lemma {:induction false} WalkMembers(table: seq<seq<u8>>, previous: u8, index: u8, level: u8, i: nat,
                                       c: (u8, u8))
    requires IsAdjacencyTable(table) && (index as nat) < NUM_KEYS && i <= NEIGHBOR_SLOTS
    ensures c in WalkSlots(table, previous, index, level, i) <==>
      exists j :: i <= j && ReportsAt(table, previous, index, level, j, c)
    decreases NEIGHBOR_SLOTS - i
  {
    if i < NEIGHBOR_SLOTS {
      WalkMembers(table, previous, index, level, i + 1, c);
      var rest := WalkSlots(table, previous, index, level, i + 1);
      var here := WalkSlots(table, previous, index, level, i)[..|WalkSlots(table, previous, index, level, i)| - |rest|];
      assert WalkSlots(table, previous, index, level, i) == here + rest;
      assert c in here <==> ReportsAt(table, previous, index, level, i, c);
      if c in WalkSlots(table, previous, index, level, i) && !(c in rest) {
        assert ReportsAt(table, previous, index, level, i, c);
      }
      if exists j :: i <= j && ReportsAt(table, previous, index, level, j, c) {
        var j :| i <= j && ReportsAt(table, previous, index, level, j, c);
        if j > i {
          assert c in rest;
        }
      }
    }
  }

  /** Slot `j` of `index`'s row accounts for the call `c`: directly at `level`, or through the
      walk from that neighbour one level down. */
  predicate ReportsAt(table: seq<seq<u8>>, previous: u8, index: u8, level: u8, j: nat, c: (u8, u8))
    requires IsAdjacencyTable(table) && (index as nat) < NUM_KEYS
  {
    Reports(table, previous, index, j) &&
    (c == (table[index][j], level) || (level > 0 && c in Walk(table, index, table[index][j], level - 1)))
  }

  /** A key two hops from `key` in `table`: a neighbour of a neighbour, other than `key`. */
  predicate SecondHop(table: seq<seq<u8>>, key: u8, n: u8, m: u8)
    requires IsAdjacencyTable(table) && (key as nat) < NUM_KEYS
  {
    n in table[key] && n != NO_NEIGHBOR && m in table[n] && m != NO_NEIGHBOR && m != key
  }

  /** The walk `adjacency_recursion(255, key, 1, ..)` made when a key is struck: level 1 for
      each neighbour of the key, level 0 for each neighbour of a neighbour other than the key
      itself. Nothing further than two hops is reported. */
  lemma StrikeWalk(table: seq<seq<u8>>, key: u8, c: (u8, u8))
    requires IsAdjacencyTable(table) && (key as nat) < NUM_KEYS
    ensures c in Walk(table, NO_NEIGHBOR, key, 1) <==>
      (c.1 == 1 && c.0 in table[key] && c.0 != NO_NEIGHBOR) ||
      (c.1 == 0 && exists n :: SecondHop(table, key, n, c.0))
  {
    if c in Walk(table, NO_NEIGHBOR, key, 1) {
      StrikeWalkSound(table, key, c);
    } else if c.1 == 1 && c.0 in table[key] && c.0 != NO_NEIGHBOR {
      var j :| 0 <= j < NEIGHBOR_SLOTS && table[key][j] == c.0;
      StrikeWalkReaches(table, key, j, c);
    } else if c.1 == 0 && exists n :: SecondHop(table, key, n, c.0) {
      var n :| SecondHop(table, key, n, c.0);
      StrikeWalkSecondHop(table, key, n, c.0);
    }
  }

  lemma StrikeWalkSound(table: seq<seq<u8>>, key: u8, c: (u8, u8))
    requires IsAdjacencyTable(table) && (key as nat) < NUM_KEYS
    requires c in Walk(table, NO_NEIGHBOR, key, 1)
    ensures (c.1 == 1 && c.0 in table[key] && c.0 != NO_NEIGHBOR) ||
      (c.1 == 0 && exists n :: SecondHop(table, key, n, c.0))
  {
    WalkMembers(table, NO_NEIGHBOR, key, 1, 0, c);
    var j :| 0 <= j && ReportsAt(table, NO_NEIGHBOR, key, 1, j, c);
    assert j < NEIGHBOR_SLOTS;
    var n := table[key][j];
    assert n in table[key] && n != NO_NEIGHBOR;
    if c != (n, 1) {
      assert c in Walk(table, key, n, 0);
      SecondLevelSound(table, key, n, c);
    }
  }

  /** A call of the walk one level down from neighbour `n` of `key` is a second hop. */
  lemma SecondLevelSound(table: seq<seq<u8>>, key: u8, n: u8, c: (u8, u8))
    requires IsAdjacencyTable(table) && (key as nat) < NUM_KEYS
    requires n in table[key] && n != NO_NEIGHBOR && c in Walk(table, key, n, 0)
    ensures c.1 == 0 && SecondHop(table, key, n, c.0)
  {
    WalkMembers(table, key, n, 0, 0, c);
    var j :| 0 <= j && ReportsAt(table, key, n, 0, j, c);
    assert j < NEIGHBOR_SLOTS && c == (table[n][j], 0);
    assert c.0 in table[n];
  }

  lemma StrikeWalkReaches(table: seq<seq<u8>>, key: u8, j: nat, c: (u8, u8))
    requires IsAdjacencyTable(table) && (key as nat) < NUM_KEYS && j < NEIGHBOR_SLOTS
    requires table[key][j] != NO_NEIGHBOR && c == (table[key][j], 1)
    ensures c in Walk(table, NO_NEIGHBOR, key, 1)
  {
    WalkMembers(table, NO_NEIGHBOR, key, 1, 0, c);
    assert ReportsAt(table, NO_NEIGHBOR, key, 1, j, c);
  }

  lemma StrikeWalkSecondHop(table: seq<seq<u8>>, key: u8, n: u8, m: u8)
    requires IsAdjacencyTable(table) && (key as nat) < NUM_KEYS
    requires SecondHop(table, key, n, m)
    ensures (m, 0) in Walk(table, NO_NEIGHBOR, key, 1)
  {
    var j :| 0 <= j < NEIGHBOR_SLOTS && table[key][j] == n;
    var j2 :| 0 <= j2 < NEIGHBOR_SLOTS && table[n][j2] == m;
    WalkMembers(table, key, n, 0, 0, (m, 0));
    assert ReportsAt(table, key, n, 0, j2, (m, 0));
    WalkMembers(table, NO_NEIGHBOR, key, 1, 0, (m, 0));
    assert ReportsAt(table, NO_NEIGHBOR, key, 1, j, (m, 0));
  }

  /** `StrikeWalk` for the keyboard's own table: the walk made when key `key` is struck reports
      its neighbours at level 1 and their other neighbours at level 0, and nothing else. */
  lemma StrikeCalls(key: u8, c: (u8, u8))
    requires (key as nat) < NUM_KEYS
    ensures IsAdjacencyTable(ADJACENCY_BY_INDEX)
    ensures c in AdjacencyCalls(NO_NEIGHBOR, key, 1) <==>
      (c.1 == 1 && c.0 in ADJACENCY_BY_INDEX[key] && c.0 != NO_NEIGHBOR) ||
      (c.1 == 0 && exists n :: SecondHop(ADJACENCY_BY_INDEX, key, n, c.0))
  {
    AdjacencyWellFormed();
    StrikeWalk(ADJACENCY_BY_INDEX, key, c);
  }
}
