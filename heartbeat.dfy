// The regular-tick component of SgtSim/Heartbeat.h: it asks for an update
// on the first timestep and then every dt.

module Heartbeat {
  import opened SimTime

  class Heartbeat {
    var id: string
    var dt: Time
    var nextBeat: Time
    /** How often needsUpdate has been triggered. */
    var needsUpdateCount: nat

    constructor(id': string, dt': Time)
      ensures id == id' && dt == dt' && nextBeat == NotADateTime && needsUpdateCount == 0
    {
      id := id';
      dt := dt';
      nextBeat := NotADateTime;
      needsUpdateCount := 0;
    }

    /** validUntil: the time of the next beat. */
    function ValidUntil(): (r: Time)
      reads this
      ensures r == nextBeat
    {
      nextBeat
    }

    /** initializeState: no beat is scheduled yet, and an update on the
        first timestep is requested. */
    method InitializeState()
      modifies this
      ensures nextBeat == NotADateTime && needsUpdateCount == old(needsUpdateCount) + 1
      ensures id == old(id) && dt == old(dt)
    {
      nextBeat := NotADateTime;
      needsUpdateCount := needsUpdateCount + 1;
    }

    /** updateState: the first update beats at t; a beat at t moves the
        next beat on by dt; an update at any other time leaves it. */
    method UpdateState(t: Time)
      modifies this
      ensures nextBeat == NextBeat(old(nextBeat), t, dt)
      ensures t.Ticks? && dt.Ticks? && dt.n > 0 && (old(nextBeat) == NotADateTime || LessEq(t, old(nextBeat))) ==>
                Less(t, ValidUntil())
      ensures id == old(id) && dt == old(dt) && needsUpdateCount == old(needsUpdateCount)
    {
      if nextBeat == NotADateTime {
        nextBeat := t;
      }
      if t == nextBeat {
        nextBeat := Add(nextBeat, dt);
      }
      if t.Ticks? && dt.Ticks? && dt.n > 0 && (old(nextBeat) == NotADateTime || LessEq(t, old(nextBeat))) {
        BeatStaysAhead(old(nextBeat), t, dt);
      }
    }

    /** setDt changes only dt. */
    method SetDt(dt': Time)
      modifies this
      ensures dt == dt' && id == old(id) && nextBeat == old(nextBeat) && needsUpdateCount == old(needsUpdateCount)
    {
      dt := dt';
    }
  }

  /** The next beat after an update at t. */
  function NextBeat(nextBeat: Time, t: Time, dt: Time): Time
  {
    var nb := if nextBeat == NotADateTime then t else nextBeat;
    if t == nb then Add(nb, dt) else nb
  }

  /** The first update (no beat scheduled) schedules the next beat at
      t + dt; later updates advance the beat only when they fall on it. */
  lemma NextBeatSpec(nextBeat: Time, t: Time, dt: Time)
    ensures nextBeat == NotADateTime ==> NextBeat(nextBeat, t, dt) == Add(t, dt)
    ensures nextBeat != NotADateTime && t == nextBeat ==> NextBeat(nextBeat, t, dt) == Add(nextBeat, dt)
    ensures nextBeat != NotADateTime && t != nextBeat ==> NextBeat(nextBeat, t, dt) == nextBeat
  {
  }

  /** With a positive tick, an update at a finite time t that is not past
      the scheduled beat leaves the next beat strictly after t, so the
      heartbeat always asks to be updated again in the future. */
  lemma BeatStaysAhead(nextBeat: Time, t: Time, dt: Time)
    requires t.Ticks? && dt.Ticks? && dt.n > 0
    requires nextBeat == NotADateTime || LessEq(t, nextBeat)
    ensures Less(t, NextBeat(nextBeat, t, dt))
  {
    AddPositiveAdvances(t, dt);
  }

  /** Beating at every scheduled time from a start t0 produces the beats
      t0 + dt, t0 + 2dt, ...: k beats land at t0 + k*dt. */
  function BeatsFrom(t0: int, dt: int, k: nat): Time
  {
    if k == 0 then NotADateTime
    else if k == 1 then Ticks(t0 + dt)
    else NextBeat(BeatsFrom(t0, dt, k - 1), BeatsFrom(t0, dt, k - 1), Ticks(dt))
  }

  lemma {:induction false} BeatsAreRegular(t0: int, dt: int, k: nat)
    requires k >= 1
    ensures BeatsFrom(t0, dt, k) == Ticks(t0 + k * dt)
  {
    if k > 1 {
      BeatsAreRegular(t0, dt, k - 1);
      assert t0 + (k - 1) * dt + dt == t0 + k * dt;
    }
  }
}
