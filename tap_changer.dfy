// Tap changers of SgtSim/TapChanger.h: a tap position indexes a table of
// off-nominal ratios, and setting the tap pushes the ratio into one
// winding of the controlled transformer.

module TapChanger {
  import opened Shared
  import opened SimTime
  import Transformer

  /** `std::size_t` is 64 bits wide. */
  const SizeModulus: int := 0x1_0000_0000_0000_0000

  /** Default tolerance of an automatic tap changer. */
  const DefaultTolerance: real := 0.02

  /** `static_cast<std::size_t>(tap - minTap)`: the offset, wrapped to an
      unsigned 64-bit value when the tap is below the minimum. */
  function TapIdx(tap: int, minTap: int): (r: nat)
    requires -0x8000_0000 <= tap < 0x8000_0000 && -0x8000_0000 <= minTap < 0x8000_0000
    ensures r < SizeModulus
    ensures r == (tap - minTap) % SizeModulus
  {
    if tap >= minTap then tap - minTap else tap - minTap + SizeModulus
  }

  /** A tap index inside a table of realistic size comes from a tap in the
      range [minTap, minTap + |table|), and every tap in that range gives
      its offset. */
  lemma TapIdxInRange(tap: int, minTap: int, nTaps: nat)
    requires -0x8000_0000 <= tap < 0x8000_0000 && -0x8000_0000 <= minTap < 0x8000_0000
    requires nTaps < 0x8000_0000_0000_0000
    ensures TapIdx(tap, minTap) < nTaps <==> minTap <= tap < minTap + nTaps
    ensures minTap <= tap ==> TapIdx(tap, minTap) == tap - minTap
  {
  }

  /** `int`: 32-bit signed. */
  predicate IsInt32(x: int) { -0x8000_0000 <= x < 0x8000_0000 }

  class TapChanger {
    /** The controlled transformer and the winding whose off-nominal ratio
        the tap sets. */
    const trans: Transformer.Transformer
    const ratioIdx: nat
    var tapRatios: seq<real>
    var tap: int
    var minTap: int

    predicate Valid()
      reads this
    {
      IsInt32(tap) && IsInt32(minTap) && |tapRatios| < 0x8000_0000_0000_0000
    }

    /** tap_ starts at its default 0; the ratio table and minTap are as
        given. */
    constructor(trans': Transformer.Transformer, ratioIdx': nat, minTap': int, tapRatios': seq<real>)
      requires IsInt32(minTap') && |tapRatios'| < 0x8000_0000_0000_0000
      ensures Valid() && trans == trans' && ratioIdx == ratioIdx'
      ensures tap == 0 && minTap == minTap' && tapRatios == tapRatios'
    {
      trans := trans';
      ratioIdx := ratioIdx';
      tapRatios := tapRatios';
      tap := 0;
      minTap := minTap';
    }

    /** tapRatio: the table entry at the tap's offset from minTap. */
    function TapRatio(): (r: real)
      reads this
      requires Valid() && TapIdx(tap, minTap) < |tapRatios|
      ensures r == tapRatios[tap - minTap]
    {
      TapIdxInRange(tap, minTap, |tapRatios|);
      tapRatios[TapIdx(tap, minTap)]
    }

    /** setTap: the tap is stored, and the ratio it selects becomes the
        off-nominal ratio of winding ratioIdx; that setter invalidates the
        transformer's cached admittance. */
    method SetTap(t: int)
      requires Valid() && IsInt32(t) && minTap <= t < minTap + |tapRatios|
      requires trans.Valid() && ratioIdx < |trans.offNomRatio|
      modifies this, trans
      ensures Valid() && tap == t && minTap == old(minTap) && tapRatios == old(tapRatios)
      ensures trans.offNomRatio == old(trans.offNomRatio)[ratioIdx := Complex(tapRatios[t - minTap], 0.0)]
      ensures trans.nomTurnsRatio == old(trans.nomTurnsRatio) && trans.zL == old(trans.zL) && trans.yM == old(trans.yM)
      ensures trans.Valid() && !trans.isValid
    {
      tap := t;
      TapIdxInRange(t, minTap, |tapRatios|);
      trans.SetOffNomRatioAt(Complex(TapRatio(), 0.0), ratioIdx);
    }
  }

  /** AutoTapChanger::validUntil: never a scheduled update, since no
      ordered time lies at or beyond positive infinity. */
  function AutoValidUntil(): (r: Time)
    ensures forall t: Time :: t.Ticks? ==> Less(t, r)
    ensures r.PosInfin?
  {
    PosInfin
  }
}
