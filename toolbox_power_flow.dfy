// The older power-flow helpers (SmartGridToolbox/PowerFlow.cc): the bus-type
// codec of that generation, and the nodal admittance matrices of a single
// admittance, of independent per-phase admittances and of an overhead line.

module ToolboxPowerFlow {
  import opened Shared
  import PowerFlow

  /** The bus types of this generation (declared in src/PowerFlow.h). */
  datatype BusType = SL | PQ | PV | BAD

  function BusTypeToStr(t: BusType): string
  {
    match t
    case SL => "SL"
    case PQ => "PQ"
    case PV => "PV"
    case BAD => "UNDEFINED"
  }

  /** str2BusType scans SL, PQ, PV up to the BAD sentinel. */
  const BusTypeTable: seq<BusType> := [SL, PQ, PV]

  function StrToBusType(str: string): BusType
  {
    PowerFlow.LastMatch(BusTypeTable, BusTypeToStr, str, BAD)
  }

  /** busType2Str(BAD) is "UNDEFINED"; str2BusType inverts busType2Str on
      SL, PQ and PV, gives BAD for "UNDEFINED" and any unknown string, and
      any other result is the type the string names. */
  lemma BusTypeStrRoundTrip(t: BusType, str: string)
    ensures BusTypeToStr(BAD) == "UNDEFINED"
    ensures t != BAD ==> StrToBusType(BusTypeToStr(t)) == t
    ensures StrToBusType("UNDEFINED") == BAD
    ensures StrToBusType(str) == BAD || BusTypeToStr(StrToBusType(str)) == str
  {
    PowerFlow.LastMatchSpec(BusTypeTable, BusTypeToStr, BusTypeToStr(t), BAD);
    PowerFlow.LastMatchSpec(BusTypeTable, BusTypeToStr, "UNDEFINED", BAD);
    PowerFlow.LastMatchFound(BusTypeTable, BusTypeToStr, str, BAD);
    if t != BAD {
      assert t == BusTypeTable[0] || t == BusTypeTable[1] || t == BusTypeTable[2];
    }
  }

  // ------------------------------------------------ simple lines

  /** Entry (r, c) of YSimpleLine for per-phase admittances y: y_i at (i, i)
      and (i+n, i+n), -y_i at (i, i+n) and (i+n, i), zero elsewhere. */
  function SimpleLineAt(y: seq<Complex>, r: nat, c: nat): Complex
    requires r < 2 * |y| && c < 2 * |y|
  {
    var n := |y|;
    var i := if r < n then r else r - n;
    var j := if c < n then c else c - n;
    if i != j then CZero
    else if r == c then y[i]
    else CNeg(y[i])
  }

  /** YLine1P's matrix is YSimpleLine's for the single admittance y. */
  lemma Line1PIsSimpleLine(y: Complex)
    ensures SimpleLineAt([y], 0, 0) == y && SimpleLineAt([y], 1, 1) == y
    ensures SimpleLineAt([y], 0, 1) == CNeg(y) && SimpleLineAt([y], 1, 0) == CNeg(y)
  {
  }

  /** YLine1P: [[y, -y], [-y, y]]. */
  method YLine1P(y: Complex) returns (yNode: array2<Complex>)
    ensures fresh(yNode) && yNode.Length0 == 2 && yNode.Length1 == 2
    ensures yNode[0, 0] == y && yNode[1, 1] == y && yNode[0, 1] == CNeg(y) && yNode[1, 0] == CNeg(y)
  {
    var minusY := CNeg(y);
    yNode := new Complex[2, 2];
    yNode[0, 0] := y;
    yNode[1, 1] := y;
    yNode[0, 1] := minusY;
    yNode[1, 0] := minusY;
  }

  /** The phase an index of a 2n-by-2n line matrix belongs to. */
  function Fold(r: nat, n: nat): nat
  {
    if r < n then r else r - n
  }

  /** The entries outside the diagonal blocks of the phases from i on hold
      their final values (the zeros of the initial matrix, and the four
      entries of each phase below i). */
  predicate SimpleLineFilled(yNode: array2<Complex>, y: seq<Complex>, i: nat)
    reads yNode
    requires yNode.Length0 == 2 * |y| && yNode.Length1 == 2 * |y|
  {
    forall r, c :: 0 <= r < 2 * |y| && 0 <= c < 2 * |y| && (Fold(r, |y|) != Fold(c, |y|) || Fold(r, |y|) < i) ==>
      yNode[r, c] == SimpleLineAt(y, r, c)
  }

  /** The four assignments for phase i. */
  method WritePhaseAdmittance(yNode: array2<Complex>, y: seq<Complex>, i: nat)
    requires yNode.Length0 == 2 * |y| && yNode.Length1 == 2 * |y| && i < |y|
    requires SimpleLineFilled(yNode, y, i)
    modifies yNode
    ensures SimpleLineFilled(yNode, y, i + 1)
  {
    var nPhase := |y|;
    yNode[i, i] := y[i];
    yNode[i + nPhase, i + nPhase] := y[i];
    yNode[i, i + nPhase] := CNeg(y[i]);
    yNode[i + nPhase, i] := CNeg(y[i]);
    forall r, c | 0 <= r < 2 * nPhase && 0 <= c < 2 * nPhase && (Fold(r, nPhase) != Fold(c, nPhase) || Fold(r, nPhase) < i + 1)
      ensures yNode[r, c] == SimpleLineAt(y, r, c)
    {
      if Fold(r, nPhase) == i && Fold(c, nPhase) == i {
        PhaseRow(y, i, c);
      }
    }
  }

  /** The rows of phase i hold y_i and -y_i in the columns of phase i and
      zeros elsewhere. */
  lemma PhaseRow(y: seq<Complex>, i: nat, c: nat)
    requires i < |y| && c < 2 * |y|
    ensures SimpleLineAt(y, i, c) == if c == i then y[i] else if c == i + |y| then CNeg(y[i]) else CZero
    ensures SimpleLineAt(y, i + |y|, c) == if c == i + |y| then y[i] else if c == i then CNeg(y[i]) else CZero
  {
  }

  /** YSimpleLine: no cross terms, one single admittance per phase. */
  method YSimpleLine(y: seq<Complex>) returns (yNode: array2<Complex>)
    ensures fresh(yNode) && yNode.Length0 == 2 * |y| && yNode.Length1 == 2 * |y|
    ensures forall r, c :: 0 <= r < 2 * |y| && 0 <= c < 2 * |y| ==> yNode[r, c] == SimpleLineAt(y, r, c)
  {
    var nPhase := |y|;
    var nTerm := 2 * nPhase;
    yNode := ZeroMatrix(nTerm, nTerm);
    var i := 0;
    while i < nPhase
      invariant 0 <= i <= nPhase
      invariant SimpleLineFilled(yNode, y, i)
    {
      WritePhaseAdmittance(yNode, y, i);
      i := i + 1;
    }
  }

  function SimpleLineRow(y: seq<Complex>, r: nat): seq<Complex>
    requires r < 2 * |y|
  {
    seq(2 * |y|, c requires 0 <= c < 2 * |y| => SimpleLineAt(y, r, c))
  }

  /** A sum of entries that are all zero but for the one at p. */
  lemma {:induction false} CSumOne(s: seq<Complex>, p: nat)
    requires forall k :: 0 <= k < |s| && k != p ==> s[k] == CZero
    ensures CSum(s) == if p < |s| then s[p] else CZero
  {
    if |s| > 0 {
      var init := s[..|s| - 1];
      assert forall k :: 0 <= k < |init| && k != p ==> init[k] == CZero by {
        forall k | 0 <= k < |init| && k != p
          ensures init[k] == CZero
        {
          assert init[k] == s[k];
        }
      }
      CSumOne(init, p);
      var last := s[|s| - 1];
      assert CSum(s) == CAdd(CSum(init), last);
      if p == |s| - 1 {
        assert CSum(init) == CZero;
        assert CAdd(CZero, last) == last;
      } else {
        assert last == CZero;
        assert CAdd(CSum(init), CZero) == CSum(init);
      }
    }
  }

  /** YLine1P and YSimpleLine are symmetric, and each of their rows sums to
      zero. */
  lemma {:induction false} SimpleLineBalanced(y: seq<Complex>, r: nat, c: nat)
    requires r < 2 * |y| && c < 2 * |y|
    ensures SimpleLineAt(y, r, c) == SimpleLineAt(y, c, r)
    ensures CSum(SimpleLineRow(y, r)) == CZero
  {
    SimpleLineRowSum(y, r);
  }

  /** Row r has y_i and -y_i in the columns i and i+n of its phase i and
      zeros elsewhere, so it sums to zero. */
  lemma {:induction false} SimpleLineRowSum(y: seq<Complex>, r: nat)
    requires r < 2 * |y|
    ensures CSum(SimpleLineRow(y, r)) == CZero
  {
    var i := Fold(r, |y|);
    SimpleLineRowShape(y, r);
    CSumTwo(SimpleLineRow(y, r), i, i + |y|);
    assert CAdd(y[i], CNeg(y[i])) == CZero && CAdd(CNeg(y[i]), y[i]) == CZero;
  }

  /** The entries of row r of YSimpleLine, phase i = Fold(r, n). */
  lemma SimpleLineRowShape(y: seq<Complex>, r: nat)
    requires r < 2 * |y|
    ensures var i, row := Fold(r, |y|), SimpleLineRow(y, r);
            (forall k :: 0 <= k < 2 * |y| && k != i && k != i + |y| ==> row[k] == CZero)
            && (row[i] == y[i] || row[i] == CNeg(y[i]))
            && (row[i] == y[i] <==> row[i + |y|] == CNeg(y[i]))
  {
    var i := Fold(r, |y|);
    PhaseRow(y, i, i);
    PhaseRow(y, i, i + |y|);
  }

  /** A sum of entries that are all zero but for those at i and j. */
  lemma CSumTwo(s: seq<Complex>, i: nat, j: nat)
    requires i < j < |s|
    requires forall k :: 0 <= k < |s| && k != i && k != j ==> s[k] == CZero
    ensures CSum(s) == CAdd(s[i], s[j])
  {
    var left, right := s[..j], s[j..];
    assert s == left + right;
    CSumAppend(left, right);
    forall k | 0 <= k < |left| && k != i
      ensures left[k] == CZero
    {
      assert left[k] == s[k];
    }
    forall k | 0 <= k < |right| && k != 0
      ensures right[k] == CZero
    {
      assert right[k] == s[j + k];
    }
    CSumOne(left, i);
    CSumOne(right, 0);
    assert left[i] == s[i] && right[0] == s[j];
  }

  // ------------------------------------------------ overhead lines

  /** YOverheadLine's impedance before inversion: the computation of
      `carson`, with r the resistances per unit length and DMat the
      distances, scaled by L. */
  method YOverheadLineZ(r: seq<real>, dMat: seq<seq<real>>, L: real, freq: real,
                        lnRhoOverFreq: real, lnRecip: real -> real) returns (z: array2<Complex>)
    requires PowerFlow.SquareReal(dMat, |r|)
    ensures fresh(z) && z.Length0 == |r| && z.Length1 == |r|
    ensures forall i, k :: 0 <= i < |r| && 0 <= k < |r| ==> z[i, k] == z[k, i]
    ensures forall i, k :: 0 <= i < |r| && 0 <= k < |r| ==>
      z[i, k] == PowerFlow.CarsonZ(i, k, dMat, r, L, freq, lnRhoOverFreq, lnRecip)
  {
    z := PowerFlow.Carson(|r|, dMat, r, L, freq, lnRhoOverFreq, lnRecip);
    forall i, k | 0 <= i < |r| && 0 <= k < |r|
      ensures z[i, k] == z[k, i]
    {
      PowerFlow.CarsonSymmetric(i, k, dMat, dMat, r, L, freq, lnRhoOverFreq, lnRecip);
    }
  }
}
