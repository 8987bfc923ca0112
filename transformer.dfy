// The transformer base class of SgtCore/Transformer.cc: winding parameters
// whose setters invalidate a cached admittance matrix, and the lazy
// recomputation of that matrix.

module Transformer {
  import opened Shared

  type Vec = seq<Complex>
  type Mat = seq<seq<Complex>>

  /** The parameters the admittance is computed from. */
  datatype Params = Params(nomTurnsRatio: Vec, offNomRatio: Vec, zL: Vec, yM: Vec)

  /** Element-wise product (`%`). */
  function ElemMul(a: Vec, b: Vec): (r: Vec)
    requires |a| == |b|
    ensures |r| == |a|
  {
    seq(|a|, i requires 0 <= i < |a| => CMul(a[i], b[i]))
  }

  /** At the nominal tap (every off-nominal ratio 1) the turns ratio is the
      nominal one. */
  lemma NominalTapTurnsRatio(nom: Vec, off: Vec)
    requires |nom| == |off| && forall i :: 0 <= i < |off| ==> off[i] == Complex(1.0, 0.0)
    ensures ElemMul(nom, off) == nom
  {
  }

  class Transformer {
    var nomTurnsRatio: Vec
    var offNomRatio: Vec
    var zL: Vec
    var yM: Vec
    var isValid: bool
    /** The cached admittance `Y_`. */
    var y: Mat
    /** How often admittanceChanged has been triggered. */
    var admittanceChangedCount: nat
    /** How often calcY has been evaluated. */
    var calcCount: nat
    /** The winding-specific admittance calculation of the concrete
        transformer type. */
    const calcY: Params -> Mat

    function CurrentParams(): Params
      reads this
    {
      Params(nomTurnsRatio, offNomRatio, zL, yM)
    }

    /** A valid cache holds the admittance of the current parameters. */
    predicate Valid()
      reads this
    {
      isValid ==> y == calcY(CurrentParams())
    }

    constructor(nomTurnsRatio': Vec, offNomRatio': Vec, zL': Vec, yM': Vec, calcY': Params -> Mat)
      ensures Valid() && !isValid
      ensures CurrentParams() == Params(nomTurnsRatio', offNomRatio', zL', yM') && calcY == calcY'
      ensures admittanceChangedCount == 0 && calcCount == 0
    {
      nomTurnsRatio := nomTurnsRatio';
      offNomRatio := offNomRatio';
      zL := zL';
      yM := yM';
      calcY := calcY';
      isValid := false;
      y := [];
      admittanceChangedCount := 0;
      calcCount := 0;
    }

    /** turnsRatio: nominal times off-nominal ratio, winding by winding. */
    function TurnsRatio(): (r: Vec)
      reads this
      requires |nomTurnsRatio| == |offNomRatio|
      ensures |r| == |nomTurnsRatio|
      ensures forall i :: 0 <= i < |r| ==> r[i] == CMul(nomTurnsRatio[i], offNomRatio[i])
    {
      ElemMul(nomTurnsRatio, offNomRatio)
    }

    /** invalidate: the cache is marked stale and admittanceChanged fires. */
    method Invalidate()
      modifies this
      ensures !isValid && admittanceChangedCount == old(admittanceChangedCount) + 1
      ensures CurrentParams() == old(CurrentParams()) && y == old(y) && calcCount == old(calcCount)
      ensures Valid()
    {
      isValid := false;
      admittanceChangedCount := admittanceChangedCount + 1;
    }

    /** ensureValid: calcY runs only when the cache is stale; afterwards
        the cache is valid and holds the admittance of the current
        parameters. */
    method EnsureValid()
      requires Valid()
      modifies this
      ensures Valid() && isValid && y == calcY(CurrentParams())
      ensures calcCount == old(calcCount) + (if old(isValid) then 0 else 1)
      ensures old(isValid) ==> y == old(y)
      ensures CurrentParams() == old(CurrentParams()) && admittanceChangedCount == old(admittanceChangedCount)
    {
      if !isValid {
        y := calcY(CurrentParams());
        calcCount := calcCount + 1;
        isValid := true;
      }
    }

    /** inServiceY: always the admittance of the current parameters. */
    method InServiceY() returns (r: Mat)
      requires Valid()
      modifies this
      ensures r == calcY(CurrentParams()) && Valid() && isValid
      ensures calcCount == old(calcCount) + (if old(isValid) then 0 else 1)
      ensures CurrentParams() == old(CurrentParams()) && admittanceChangedCount == old(admittanceChangedCount)
    {
      EnsureValid();
      r := y;
    }

    method SetNomTurnsRatio(v: Vec)
      modifies this
      ensures CurrentParams() == old(CurrentParams()).(nomTurnsRatio := v)
      ensures !isValid && Valid() && admittanceChangedCount == old(admittanceChangedCount) + 1
      ensures calcCount == old(calcCount)
    {
      nomTurnsRatio := v;
      Invalidate();
    }

    method SetNomTurnsRatioAt(c: Complex, iWinding: nat)
      requires iWinding < |nomTurnsRatio|
      modifies this
      ensures CurrentParams() == old(CurrentParams()).(nomTurnsRatio := old(nomTurnsRatio)[iWinding := c])
      ensures !isValid && Valid() && admittanceChangedCount == old(admittanceChangedCount) + 1
      ensures calcCount == old(calcCount)
    {
      nomTurnsRatio := nomTurnsRatio[iWinding := c];
      Invalidate();
    }

    method SetOffNomRatio(v: Vec)
      modifies this
      ensures CurrentParams() == old(CurrentParams()).(offNomRatio := v)
      ensures !isValid && Valid() && admittanceChangedCount == old(admittanceChangedCount) + 1
      ensures calcCount == old(calcCount)
    {
      offNomRatio := v;
      Invalidate();
    }

    method SetOffNomRatioAt(c: Complex, iWinding: nat)
      requires iWinding < |offNomRatio|
      modifies this
      ensures CurrentParams() == old(CurrentParams()).(offNomRatio := old(offNomRatio)[iWinding := c])
      ensures !isValid && Valid() && admittanceChangedCount == old(admittanceChangedCount) + 1
      ensures calcCount == old(calcCount)
    {
      offNomRatio := offNomRatio[iWinding := c];
      Invalidate();
    }

    method SetZL(v: Vec)
      modifies this
      ensures CurrentParams() == old(CurrentParams()).(zL := v)
      ensures !isValid && Valid() && admittanceChangedCount == old(admittanceChangedCount) + 1
      ensures calcCount == old(calcCount)
    {
      zL := v;
      Invalidate();
    }

    method SetZLAt(c: Complex, iWinding: nat)
      requires iWinding < |zL|
      modifies this
      ensures CurrentParams() == old(CurrentParams()).(zL := old(zL)[iWinding := c])
      ensures !isValid && Valid() && admittanceChangedCount == old(admittanceChangedCount) + 1
      ensures calcCount == old(calcCount)
    {
      zL := zL[iWinding := c];
      Invalidate();
    }

    method SetYM(v: Vec)
      modifies this
      ensures CurrentParams() == old(CurrentParams()).(yM := v)
      ensures !isValid && Valid() && admittanceChangedCount == old(admittanceChangedCount) + 1
      ensures calcCount == old(calcCount)
    {
      yM := v;
      Invalidate();
    }

    method SetYMAt(c: Complex, iWinding: nat)
      requires iWinding < |yM|
      modifies this
      ensures CurrentParams() == old(CurrentParams()).(yM := old(yM)[iWinding := c])
      ensures !isValid && Valid() && admittanceChangedCount == old(admittanceChangedCount) + 1
      ensures calcCount == old(calcCount)
    {
      yM := yM[iWinding := c];
      Invalidate();
    }
  }

  /** Two admittance queries with no setter between them evaluate calcY at
      most once, and both answer the admittance of the current
      parameters. */
  method QueryTwice(t: Transformer) returns (y1: Mat, y2: Mat)
    requires t.Valid()
    modifies t
    ensures y1 == y2 == t.calcY(t.CurrentParams())
    ensures t.calcCount <= old(t.calcCount) + 1
  {
    y1 := t.InServiceY();
    y2 := t.InServiceY();
  }

  /** A setter between two queries forces a fresh evaluation that sees the
      new parameters. */
  method QueryAfterSetter(t: Transformer, z: Vec) returns (y1: Mat, y2: Mat)
    requires t.Valid()
    modifies t
    ensures y1 == t.calcY(old(t.CurrentParams()))
    ensures y2 == t.calcY(old(t.CurrentParams()).(zL := z))
    ensures t.calcCount == old(t.calcCount) + (if old(t.isValid) then 1 else 2)
  {
    y1 := t.InServiceY();
    t.SetZL(z);
    y2 := t.InServiceY();
  }
}
