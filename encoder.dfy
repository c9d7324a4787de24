/** The rotary encoder of the encoder prototype (encoder.c). The external-interrupt handler
    records one detent of rotation (+1 or -1 by the level of pin PA10) or one click of the
    push switch, then ignores further edges until `encoder_tick` has counted a lockout of
    10000 ticks down to zero. The main loop drains the pending increment and clicks.

    The interrupt flags and the pin level are parameters of `Interrupt`; the handler's final
    write that clears both flags has no effect on the modelled state. */
module Encoder {
  import opened Prelude

  /** Ticks during which edges are ignored after one is taken. */
  const LOCKOUT_TICKS: u32 := 10000

  /** The value of the driver's three globals. */
  datatype EncoderModel = EncoderModel(clicks: u8, increment: i8, lockout: u32)

  const INITIAL: EncoderModel := EncoderModel(0, 0, 0)

  /** `EIC_Handler`: with no lockout running, take the edge. A rotation edge sets the increment
      by the level of PA10; a switch edge adds a click. Either starts the lockout (so does an
      interrupt with neither flag). */
  function Interrupted(m: EncoderModel, rotation: bool, switchPressed: bool, pinAHigh: bool): (r: EncoderModel)
    ensures m.lockout != 0 ==> r == m
    ensures m.lockout == 0 ==> r.lockout == LOCKOUT_TICKS
    ensures m.lockout == 0 && rotation ==>
      r.increment == (if pinAHigh then -1 else 1) && r.clicks == m.clicks
    ensures m.lockout == 0 && !rotation && switchPressed ==>
      r.clicks == WrapU8(m.clicks + 1) && r.increment == m.increment
    ensures m.lockout == 0 && !rotation && !switchPressed ==>
      r.clicks == m.clicks && r.increment == m.increment
  {
    if m.lockout != 0 then m
    else if rotation then m.(lockout := LOCKOUT_TICKS, increment := if pinAHigh then -1 else 1)
    else if switchPressed then m.(lockout := LOCKOUT_TICKS, clicks := WrapU8(m.clicks + 1))
    else m.(lockout := LOCKOUT_TICKS)
  }

  /** `encoder_tick`: the lockout counts down and stops at zero. */
  function Ticked(m: EncoderModel): (r: EncoderModel)
    ensures r.lockout as int == if m.lockout == 0 then 0 else m.lockout - 1
    ensures r.clicks == m.clicks && r.increment == m.increment
  {
    if m.lockout != 0 then m.(lockout := m.lockout - 1) else m
  }

  /** `n` calls of `encoder_tick`. */
  function TickedTimes(m: EncoderModel, n: nat): (r: EncoderModel)
    ensures r.clicks == m.clicks && r.increment == m.increment
  {
    if n == 0 then m else Ticked(TickedTimes(m, n - 1))
  }

  /** After `n` ticks the lockout has counted down by `n`, never below zero. */
  lemma {:induction false} TickedTimesLockout(m: EncoderModel, n: nat)
    ensures TickedTimes(m, n).lockout as int == if n <= m.lockout then m.lockout - n else 0
  {
    if n > 0 {
      TickedTimesLockout(m, n - 1);
    }
  }

  /** An edge that is taken blocks every edge for the next 9999 ticks, and after 10000 ticks
      the next edge is taken again. */
  lemma LockoutWindow(m: EncoderModel, rotation: bool, switchPressed: bool, pinAHigh: bool, n: nat,
                      rotation2: bool, switch2: bool, pin2: bool)
    requires m.lockout == 0
    ensures var taken := TickedTimes(Interrupted(m, rotation, switchPressed, pinAHigh), n);
      (n < LOCKOUT_TICKS ==> Interrupted(taken, rotation2, switch2, pin2) == taken) &&
      (n >= LOCKOUT_TICKS ==> Interrupted(taken, rotation2, switch2, pin2).lockout == LOCKOUT_TICKS)
  {
    TickedTimesLockout(Interrupted(m, rotation, switchPressed, pinAHigh), n);
  }

  /** `encoder_get_increment`: the pending increment, widened to 32 bits; none is left. */
  function TakeIncrement(m: EncoderModel): (r: (EncoderModel, i32))
    ensures r.1 == m.increment && r.0 == m.(increment := 0)
  {
    (m.(increment := 0), m.increment)
  }

  /** `encoder_get_clicks`: the pending clicks; none are left. */
  function TakeClicks(m: EncoderModel): (r: (EncoderModel, u8))
    ensures r.1 == m.clicks && r.0 == m.(clicks := 0)
  {
    (m.(clicks := 0), m.clicks)
  }

  /** Each detent and each click is reported once: a second take right after the first
      reports nothing, and the takes do not disturb each other or the lockout. */
  lemma TakesReportOnce(m: EncoderModel)
    ensures TakeIncrement(TakeIncrement(m).0).1 == 0
    ensures TakeClicks(TakeClicks(m).0).1 == 0
    ensures TakeClicks(TakeIncrement(m).0).1 == m.clicks
    ensures TakeIncrement(TakeClicks(m).0).1 == m.increment
    ensures TakeIncrement(TakeClicks(m).0).0.lockout == m.lockout
  {
  }

  class EncoderDriver {
    var clicks: u8
    var increment: i8
    var incrementLockout: u32

    ghost function Model(): EncoderModel
      reads this
    {
      EncoderModel(clicks, increment, incrementLockout)
    }

    /** The globals' initial values. */
    constructor()
      ensures Model() == INITIAL
    {
      clicks := 0;
      increment := 0;
      incrementLockout := 0;
    }

    /** `EIC_Handler`, with the interrupt flags of EXTINT3 (rotation) and EXTINT7 (switch) and
        the level of PA10 read from the hardware. */
    method Interrupt(rotation: bool, switchPressed: bool, pinAHigh: bool)
      modifies this
      ensures Model() == Interrupted(old(Model()), rotation, switchPressed, pinAHigh)
    {
      if incrementLockout == 0 {
        incrementLockout := LOCKOUT_TICKS;
        if rotation {
          if pinAHigh {
            increment := -1;
          } else {
            increment := 1;
          }
        } else if switchPressed {
          incrementLockout := LOCKOUT_TICKS;
          clicks := WrapU8(clicks as int + 1);
        }
      }
    }

    /** `encoder_tick`. */
    method Tick()
      modifies this
      ensures Model() == Ticked(old(Model()))
    {
      if incrementLockout != 0 {
        incrementLockout := incrementLockout - 1;
      }
    }

    /** `encoder_get_increment`. */
    method GetIncrement() returns (result: i32)
      modifies this
      ensures (Model(), result) == TakeIncrement(old(Model()))
    {
      result := increment;
      increment := increment - result;
    }

    /** `encoder_get_clicks`. */
    method GetClicks() returns (result: u8)
      modifies this
      ensures (Model(), result) == TakeClicks(old(Model()))
    {
      result := clicks;
      clicks := clicks - result;
    }
  }
}
