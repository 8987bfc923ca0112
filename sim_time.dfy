// Simulation time: `posix_time::time_duration` with its special values
// (not-a-date-time and the two infinities), as the simulation layer
// (SmartGridToolbox/Simulation.h, SgtSim/Heartbeat.h, SgtSim/TapChanger.h)
// compares and advances it.

module SimTime {

  /** A duration in ticks, or one of the special values. */
  datatype Time = NotADateTime | NegInfin | PosInfin | Ticks(n: int)
  {
    predicate IsSpecial() { !Ticks? }
  }

  /** `operator<`: not-a-date-time is unordered; negative infinity is below
      and positive infinity above every other ordered value. */
  predicate Less(a: Time, b: Time)
  {
    match (a, b)
    case (NotADateTime, _) => false
    case (_, NotADateTime) => false
    case (NegInfin, NegInfin) => false
    case (NegInfin, _) => true
    case (_, PosInfin) => !a.PosInfin?
    case (Ticks(x), Ticks(y)) => x < y
    case (_, _) => false
  }

  predicate LessEq(a: Time, b: Time) { Less(a, b) || (a == b && !a.NotADateTime?) }

  /** `operator+`: not-a-date-time absorbs everything, opposite infinities
      give not-a-date-time, an infinity absorbs a finite value. */
  function Add(a: Time, b: Time): (r: Time)
    ensures a.Ticks? && b.Ticks? ==> r == Ticks(a.n + b.n)
    ensures a.NotADateTime? || b.NotADateTime? ==> r.NotADateTime?
    ensures a.Ticks? && !b.Ticks? ==> r == b
    ensures !a.Ticks? && b.Ticks? ==> r == a
  {
    match (a, b)
    case (NotADateTime, _) => NotADateTime
    case (_, NotADateTime) => NotADateTime
    case (PosInfin, NegInfin) => NotADateTime
    case (NegInfin, PosInfin) => NotADateTime
    case (Ticks(x), Ticks(y)) => Ticks(x + y)
    case (Ticks(_), _) => b
    case (_, _) => a
  }

  /** Less is a strict order, total on the ordered values. */
  lemma LessStrictOrder(a: Time, b: Time, c: Time)
    ensures !Less(a, a)
    ensures Less(a, b) ==> !Less(b, a)
    ensures Less(a, b) && Less(b, c) ==> Less(a, c)
    ensures !a.NotADateTime? && !b.NotADateTime? ==> Less(a, b) || a == b || Less(b, a)
  {
  }

  /** Not-a-date-time compares neither below nor above anything. */
  lemma NotADateTimeUnordered(a: Time)
    ensures !Less(NotADateTime, a) && !Less(a, NotADateTime)
  {
  }

  /** Adding a positive finite step moves a finite time strictly forward
      and leaves the special values where they are. */
  lemma AddPositiveAdvances(t: Time, dt: Time)
    requires dt.Ticks? && dt.n > 0
    ensures t.Ticks? ==> Less(t, Add(t, dt))
    ensures t.IsSpecial() ==> Add(t, dt) == t
  {
  }
}
