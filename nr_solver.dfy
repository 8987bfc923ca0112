// Newton-Raphson power flow in rectangular coordinates (SgtCore/PowerFlowNrSolver.cc):
// the 4 x 5 block Jacobian, the selectors that interleave the PQ and PV unknowns in the
// mismatch vector f and the update vector x, the constant part Jc, the per-iteration
// refresh of J, the assembly of the blocks into one square matrix, and what the solver
// leaves in the nodes when it stops.
module PowerFlowNrSolver {
  import opened Shared

  /** A dense real matrix as a sequence of rows; sparsity is a storage detail of the source. */
  type Mat = seq<seq<real>>

  predicate Shaped(m: Mat, rows: nat, cols: nat)
  {
    |m| == rows && forall r :: 0 <= r < rows ==> |m[r]| == cols
  }

  /** A block either has its declared shape or was `reset()` to the empty matrix, which only
      a block without entries may be. */
  predicate Fits(m: Mat, rows: nat, cols: nat)
  {
    Shaped(m, rows, cols) || (m == [] && (rows == 0 || cols == 0))
  }

  function ZeroMat(rows: nat, cols: nat): (m: Mat)
    ensures Shaped(m, rows, cols)
    ensures forall r, c :: 0 <= r < rows && 0 <= c < cols ==> m[r][c] == 0.0
  {
    seq(rows, _ => seq(cols, _ => 0.0))
  }

  function Neg(m: Mat): (r: Mat)
    ensures |r| == |m| && forall i :: 0 <= i < |m| ==> |r[i]| == |m[i]|
    ensures forall i, k :: 0 <= i < |m| && 0 <= k < |m[i]| ==> r[i][k] == -m[i][k]
  {
    seq(|m|, i requires 0 <= i < |m| => seq(|m[i]|, k requires 0 <= k < |m[i]| => -m[i][k]))
  }

  /** The sub-matrix m(rows, cols) picked out by two index vectors. */
  function Sub(m: Mat, n: nat, rows: seq<nat>, cols: seq<nat>): (s: Mat)
    requires Shaped(m, n, n)
    requires forall i :: 0 <= i < |rows| ==> rows[i] < n
    requires forall k :: 0 <= k < |cols| ==> cols[k] < n
    ensures Shaped(s, |rows|, |cols|)
    ensures forall i, k :: 0 <= i < |rows| && 0 <= k < |cols| ==> s[i][k] == m[rows[i]][cols[k]]
  {
    seq(|rows|, i requires 0 <= i < |rows| => seq(|cols|, k requires 0 <= k < |cols| => m[rows[i]][cols[k]]))
  }

  function SetAt(m: Mat, r: nat, c: nat, v: real): Mat
    requires r < |m| && c < |m[r]|
  {
    m[r := m[r][c := v]]
  }

  // ---------------------------------------------------------------------------------------
  // The block Jacobian.  Rows of blocks: 0 IrPq, 1 IiPq, 2 IrPv, 3 IiPv.
  // Columns of blocks: 0 VrPq, 1 ViPq, 2 VrPv, 3 ViPv, 4 QPv.
  // ---------------------------------------------------------------------------------------

  datatype Jacobian = Jacobian(blocks: seq<seq<Mat>>)

  function BlockRows(nPq: nat, nPv: nat, i: nat): nat { if i < 2 then nPq else nPv }

  function BlockCols(nPq: nat, nPv: nat, k: nat): nat { if k < 2 then nPq else nPv }

  predicate JacobianShaped(J: Jacobian, nPq: nat, nPv: nat)
  {
    |J.blocks| == 4 &&
    (forall i :: 0 <= i < 4 ==> |J.blocks[i]| == 5) &&
    forall i, k {:trigger J.blocks[i][k]} :: 0 <= i < 4 && 0 <= k < 5 ==>
      Fits(J.blocks[i][k], BlockRows(nPq, nPv, i), BlockCols(nPq, nPv, k))
  }

  /** The Jacobian constructor: block [i][k] is an all-zero matrix with nPq rows for the PQ
      current rows (i < 2) and nPv otherwise, and nPq columns for the PQ voltage columns
      (k < 2) and nPv otherwise. */
  method NewJacobian(nPq: nat, nPv: nat) returns (J: Jacobian)
    ensures JacobianShaped(J, nPq, nPv)
    ensures forall i, k :: 0 <= i < 4 && 0 <= k < 5 ==>
      J.blocks[i][k] == ZeroMat(BlockRows(nPq, nPv, i), BlockCols(nPq, nPv, k))
  {
    var blocks: seq<seq<Mat>> := [];
    for i := 0 to 4
      invariant |blocks| == i
      invariant forall i' :: 0 <= i' < i ==> |blocks[i']| == 5
      invariant forall i', k :: 0 <= i' < i && 0 <= k < 5 ==>
        blocks[i'][k] == ZeroMat(BlockRows(nPq, nPv, i'), BlockCols(nPq, nPv, k))
    {
      var nRows := if i < 2 then nPq else nPv;
      var row: seq<Mat> := [];
      for k := 0 to 5
        invariant |row| == k
        invariant forall k' :: 0 <= k' < k ==> row[k'] == ZeroMat(nRows, BlockCols(nPq, nPv, k'))
      {
        var nCols := if k < 2 then nPq else nPv;
        row := row + [ZeroMat(nRows, nCols)];
      }
      blocks := blocks + [row];
    }
    J := Jacobian(blocks);
  }

  // ---------------------------------------------------------------------------------------
  // Selectors.  f and x have 2 (nPq + nPv) entries: the PQ pairs first, then the PV pairs.
  // ---------------------------------------------------------------------------------------

  function NVar(nPq: nat, nPv: nat): nat { 2 * (nPq + nPv) }

  /** base + 2i + parity for i < n: every other slot of a run of 2n slots. */
  function Strided(base: nat, n: nat, parity: nat): seq<nat>
  {
    seq(n, i => base + 2 * i + parity)
  }

  /** The f selectors in the order calcJMatrix takes them: IrPq, IiPq, IrPv, IiPv. */
  function FSel(nPq: nat, nPv: nat, ib: nat): seq<nat>
  {
    if ib == 0 then Strided(0, nPq, 1)
    else if ib == 1 then Strided(0, nPq, 0)
    else if ib == 2 then Strided(2 * nPq, nPv, 1)
    else Strided(2 * nPq, nPv, 0)
  }

  /** The x selectors in the order calcJMatrix takes them: VrPq, ViPq, ViPv, QPv. */
  function XSel(nPq: nat, nPv: nat, kb: nat): seq<nat>
  {
    if kb == 0 then Strided(0, nPq, 0)
    else if kb == 1 then Strided(0, nPq, 1)
    else if kb == 2 then Strided(2 * nPq, nPv, 1)
    else Strided(2 * nPq, nPv, 0)
  }

  /** Which f selector, and which entry of it, names a given row of f. */
  function RowOwner(nPq: nat, row: nat): (nat, nat)
  {
    if row < 2 * nPq then (if row % 2 == 1 then 0 else 1, row / 2)
    else (if (row - 2 * nPq) % 2 == 1 then 2 else 3, (row - 2 * nPq) / 2)
  }

  /** Which x selector, and which entry of it, names a given entry of x. */
  function ColOwner(nPq: nat, col: nat): (nat, nat)
  {
    if col < 2 * nPq then (if col % 2 == 0 then 0 else 1, col / 2)
    else (if (col - 2 * nPq) % 2 == 1 then 2 else 3, (col - 2 * nPq) / 2)
  }

  predicate Injective(s: seq<nat>)
  {
    forall p, q :: 0 <= p < |s| && 0 <= q < |s| && s[p] == s[q] ==> p == q
  }

  /** The four f selectors together number [0, NVar) exactly once: (ib, r) |-> FSel(ib)[r]
      is a bijection onto that range, with RowOwner as its inverse. */
  lemma {:induction false} FSelPermutation(nPq: nat, nPv: nat)
    ensures forall ib :: 0 <= ib < 4 ==> |FSel(nPq, nPv, ib)| == BlockRows(nPq, nPv, ib)
    ensures forall ib, r :: 0 <= ib < 4 && 0 <= r < |FSel(nPq, nPv, ib)| ==>
      FSel(nPq, nPv, ib)[r] < NVar(nPq, nPv) && RowOwner(nPq, FSel(nPq, nPv, ib)[r]) == (ib, r)
    ensures forall row :: 0 <= row < NVar(nPq, nPv) ==>
      RowOwner(nPq, row).0 < 4 && RowOwner(nPq, row).1 < |FSel(nPq, nPv, RowOwner(nPq, row).0)| &&
      FSel(nPq, nPv, RowOwner(nPq, row).0)[RowOwner(nPq, row).1] == row
    ensures forall ib :: 0 <= ib < 4 ==> Injective(FSel(nPq, nPv, ib))
  {
    forall ib, r | 0 <= ib < 4 && 0 <= r < |FSel(nPq, nPv, ib)|
      ensures FSel(nPq, nPv, ib)[r] < NVar(nPq, nPv) && RowOwner(nPq, FSel(nPq, nPv, ib)[r]) == (ib, r)
    {
      FSelOwned(nPq, nPv, ib, r);
    }
    forall row | 0 <= row < NVar(nPq, nPv)
      ensures RowOwner(nPq, row).0 < 4 && RowOwner(nPq, row).1 < |FSel(nPq, nPv, RowOwner(nPq, row).0)| &&
        FSel(nPq, nPv, RowOwner(nPq, row).0)[RowOwner(nPq, row).1] == row
    {
      RowOwned(nPq, nPv, row);
    }
  }

  lemma FSelOwned(nPq: nat, nPv: nat, ib: nat, r: nat)
    requires ib < 4 && r < |FSel(nPq, nPv, ib)|
    ensures FSel(nPq, nPv, ib)[r] < NVar(nPq, nPv) && RowOwner(nPq, FSel(nPq, nPv, ib)[r]) == (ib, r)
  {
    var v := FSel(nPq, nPv, ib)[r];
    if ib == 0 { assert v == 2 * r + 1; }
    else if ib == 1 { assert v == 2 * r; }
    else if ib == 2 { assert v - 2 * nPq == 2 * r + 1; }
    else { assert v - 2 * nPq == 2 * r; }
  }

  lemma RowOwned(nPq: nat, nPv: nat, row: nat)
    requires row < NVar(nPq, nPv)
    ensures RowOwner(nPq, row).0 < 4 && RowOwner(nPq, row).1 < |FSel(nPq, nPv, RowOwner(nPq, row).0)| &&
      FSel(nPq, nPv, RowOwner(nPq, row).0)[RowOwner(nPq, row).1] == row
  {
    var (ib, r) := RowOwner(nPq, row);
    if row < 2 * nPq {
      assert row == 2 * r + row % 2;
    } else {
      assert row - 2 * nPq == 2 * r + (row - 2 * nPq) % 2;
    }
  }

  /** The same for the x selectors, with ColOwner as the inverse. */
  lemma {:induction false} XSelPermutation(nPq: nat, nPv: nat)
    ensures forall kb :: 0 <= kb < 4 ==> |XSel(nPq, nPv, kb)| == if kb < 2 then nPq else nPv
    ensures forall kb, c :: 0 <= kb < 4 && 0 <= c < |XSel(nPq, nPv, kb)| ==>
      XSel(nPq, nPv, kb)[c] < NVar(nPq, nPv) && ColOwner(nPq, XSel(nPq, nPv, kb)[c]) == (kb, c)
    ensures forall col :: 0 <= col < NVar(nPq, nPv) ==>
      ColOwner(nPq, col).0 < 4 && ColOwner(nPq, col).1 < |XSel(nPq, nPv, ColOwner(nPq, col).0)| &&
      XSel(nPq, nPv, ColOwner(nPq, col).0)[ColOwner(nPq, col).1] == col
    ensures forall kb :: 0 <= kb < 4 ==> Injective(XSel(nPq, nPv, kb))
  {
    forall kb, c | 0 <= kb < 4 && 0 <= c < |XSel(nPq, nPv, kb)|
      ensures XSel(nPq, nPv, kb)[c] < NVar(nPq, nPv) && ColOwner(nPq, XSel(nPq, nPv, kb)[c]) == (kb, c)
    {
      XSelOwned(nPq, nPv, kb, c);
    }
    forall col | 0 <= col < NVar(nPq, nPv)
      ensures ColOwner(nPq, col).0 < 4 && ColOwner(nPq, col).1 < |XSel(nPq, nPv, ColOwner(nPq, col).0)| &&
        XSel(nPq, nPv, ColOwner(nPq, col).0)[ColOwner(nPq, col).1] == col
    {
      ColOwned(nPq, nPv, col);
    }
  }

  lemma XSelOwned(nPq: nat, nPv: nat, kb: nat, c: nat)
    requires kb < 4 && c < |XSel(nPq, nPv, kb)|
    ensures XSel(nPq, nPv, kb)[c] < NVar(nPq, nPv) && ColOwner(nPq, XSel(nPq, nPv, kb)[c]) == (kb, c)
  {
    var v := XSel(nPq, nPv, kb)[c];
    if kb == 0 { assert v == 2 * c; }
    else if kb == 1 { assert v == 2 * c + 1; }
    else if kb == 2 { assert v - 2 * nPq == 2 * c + 1; }
    else { assert v - 2 * nPq == 2 * c; }
  }

  lemma ColOwned(nPq: nat, nPv: nat, col: nat)
    requires col < NVar(nPq, nPv)
    ensures ColOwner(nPq, col).0 < 4 && ColOwner(nPq, col).1 < |XSel(nPq, nPv, ColOwner(nPq, col).0)| &&
      XSel(nPq, nPv, ColOwner(nPq, col).0)[ColOwner(nPq, col).1] == col
  {
    var (kb, c) := ColOwner(nPq, col);
    if col < 2 * nPq {
      assert col == 2 * c + col % 2;
    } else {
      assert col - 2 * nPq == 2 * c + (col - 2 * nPq) % 2;
    }
  }

  /** No two f selectors share a row, and no two x selectors share a column. */
  lemma SelectorsDisjoint(nPq: nat, nPv: nat, ib: nat, r: nat, ib': nat, r': nat)
    requires 0 <= ib < 4 && 0 <= ib' < 4
    requires r < |FSel(nPq, nPv, ib)| && r' < |FSel(nPq, nPv, ib')|
    ensures FSel(nPq, nPv, ib)[r] == FSel(nPq, nPv, ib')[r'] <==> ib == ib' && r == r'
    ensures r < |XSel(nPq, nPv, ib)| && r' < |XSel(nPq, nPv, ib')| ==>
      (XSel(nPq, nPv, ib)[r] == XSel(nPq, nPv, ib')[r'] <==> ib == ib' && r == r')
  {
    FSelPermutation(nPq, nPv);
    XSelPermutation(nPq, nPv);
  }

  // ---------------------------------------------------------------------------------------
  // Jc: the part of J that does not change between iterations.
  // ---------------------------------------------------------------------------------------

  /** The four real blocks of a complex block: rr, ri (rows Ir), ir, ii (rows Ii). */
  datatype RealForm = RealForm(rr: Mat, ri: Mat, ir: Mat, ii: Mat)

  /** initJcBlock: Jrr = -G, Jri = B, Jir = -B, Jii = -G. */
  function InitJcBlock(g: Mat, b: Mat): RealForm
  {
    RealForm(Neg(g), b, Neg(b), Neg(g))
  }

  /** The real form initJcBlock builds acts on (Re v, Im v) as multiplication by -(G + iB):
      the linear part of the current mismatch is -Y V. */
  lemma InitJcBlockIsMinusY(g: Mat, b: Mat, rows: nat, cols: nat, r: nat, c: nat, v: Complex)
    requires Shaped(g, rows, cols) && Shaped(b, rows, cols)
    requires r < rows && c < cols
    ensures var f := InitJcBlock(g, b);
      Complex(f.rr[r][c] * v.re + f.ri[r][c] * v.im, f.ir[r][c] * v.re + f.ii[r][c] * v.im)
        == CNeg(CMul(Complex(g[r][c], b[r][c]), v))
  {
  }

  /** The quadrant of Jc that initJc fills for row group p and column group q (0 PQ, 1 PV):
      initJcBlock of the matching rows and columns of G and B, or four empty matrices when
      either group has no node. */
  function JcQuadrant(g: Mat, b: Mat, n: nat, selPq: seq<nat>, selPv: seq<nat>, p: nat, q: nat): RealForm
    requires Shaped(g, n, n) && Shaped(b, n, n)
    requires forall j :: 0 <= j < |selPq| ==> selPq[j] < n
    requires forall j :: 0 <= j < |selPv| ==> selPv[j] < n
  {
    JcBlock(g, b, n, if p == 0 then selPq else selPv, if q == 0 then selPq else selPv)
  }

  /** initJcBlock of the rows rs and columns cs of G and B, or four empty matrices when
      either selection is empty. */
  function JcBlock(g: Mat, b: Mat, n: nat, rs: seq<nat>, cs: seq<nat>): RealForm
    requires Shaped(g, n, n) && Shaped(b, n, n)
    requires forall j :: 0 <= j < |rs| ==> rs[j] < n
    requires forall j :: 0 <= j < |cs| ==> cs[j] < n
  {
    if |rs| == 0 || |cs| == 0 then RealForm([], [], [], [])
    else InitJcBlock(Sub(g, n, rs, cs), Sub(b, n, rs, cs))
  }

  /** The four blocks with top-left block [i0][k0]. */
  function Quadrant(J: Jacobian, i0: nat, k0: nat): RealForm
    requires |J.blocks| == 4 && forall i :: 0 <= i < 4 ==> |J.blocks[i]| == 5
    requires i0 + 1 < 4 && k0 + 1 < 5
  {
    RealForm(J.blocks[i0][k0], J.blocks[i0][k0 + 1], J.blocks[i0 + 1][k0], J.blocks[i0 + 1][k0 + 1])
  }

  predicate QuadrantFits(f: RealForm, rows: nat, cols: nat)
  {
    Fits(f.rr, rows, cols) && Fits(f.ri, rows, cols) && Fits(f.ir, rows, cols) && Fits(f.ii, rows, cols)
  }

  /** initJc: the PQ-PQ, PV-PV and cross quadrants of Jc get initJcBlock of the matching
      parts of G and B, or are reset when one of their node groups is empty; the QPv column
      blocks are not touched. */
  method InitJc(jc0: Jacobian, g: Mat, b: Mat, n: nat, selPq: seq<nat>, selPv: seq<nat>) returns (jc: Jacobian)
    requires JacobianShaped(jc0, |selPq|, |selPv|)
    requires Shaped(g, n, n) && Shaped(b, n, n)
    requires forall j :: 0 <= j < |selPq| ==> selPq[j] < n
    requires forall j :: 0 <= j < |selPv| ==> selPv[j] < n
    ensures JacobianShaped(jc, |selPq|, |selPv|)
    ensures forall i :: 0 <= i < 4 ==> jc.blocks[i][4] == jc0.blocks[i][4]
    ensures forall p, q :: 0 <= p < 2 && 0 <= q < 2 ==>
      Quadrant(jc, 2 * p, 2 * q) == JcQuadrant(g, b, n, selPq, selPv, p, q)
  {
    var pqPq := InitJcQuadrant(g, b, n, selPq, selPq);
    var pvPv := InitJcQuadrant(g, b, n, selPv, selPv);
    var pqPv := InitJcQuadrant(g, b, n, selPq, selPv);
    var pvPq := InitJcQuadrant(g, b, n, selPv, selPq);
    jc := PlaceQuadrants(jc0, |selPq|, |selPv|, pqPq, pqPv, pvPq, pvPv);
    forall p, q | 0 <= p < 2 && 0 <= q < 2
      ensures Quadrant(jc, 2 * p, 2 * q) == JcQuadrant(g, b, n, selPq, selPv, p, q)
    {
      assert p == 0 || p == 1;
      assert q == 0 || q == 1;
    }
  }

  /** One quadrant of initJc: initJcBlock of the parts of G and B selected by its row
      group rs and column group cs, or empty when either group is. */
  method InitJcQuadrant(g: Mat, b: Mat, n: nat, rs: seq<nat>, cs: seq<nat>) returns (f: RealForm)
    requires Shaped(g, n, n) && Shaped(b, n, n)
    requires forall j :: 0 <= j < |rs| ==> rs[j] < n
    requires forall j :: 0 <= j < |cs| ==> cs[j] < n
    ensures f == JcBlock(g, b, n, rs, cs)
    ensures QuadrantFits(f, |rs|, |cs|)
  {
    if |rs| > 0 && |cs| > 0 {
      f := InitJcBlock(Sub(g, n, rs, cs), Sub(b, n, rs, cs));
    } else {
      f := RealForm([], [], [], []);
    }
  }

  /** The four quadrants written into Jc; the QPv column blocks are kept. */
  method PlaceQuadrants(jc0: Jacobian, nPq: nat, nPv: nat, pqPq: RealForm, pqPv: RealForm,
                        pvPq: RealForm, pvPv: RealForm) returns (jc: Jacobian)
    requires JacobianShaped(jc0, nPq, nPv)
    requires QuadrantFits(pqPq, nPq, nPq) && QuadrantFits(pqPv, nPq, nPv)
    requires QuadrantFits(pvPq, nPv, nPq) && QuadrantFits(pvPv, nPv, nPv)
    ensures JacobianShaped(jc, nPq, nPv)
    ensures forall i :: 0 <= i < 4 ==> jc.blocks[i][4] == jc0.blocks[i][4]
    ensures Quadrant(jc, 0, 0) == pqPq && Quadrant(jc, 0, 2) == pqPv
    ensures Quadrant(jc, 2, 0) == pvPq && Quadrant(jc, 2, 2) == pvPv
  {
    var old0, old1, old2, old3 := jc0.blocks[0][4], jc0.blocks[1][4], jc0.blocks[2][4], jc0.blocks[3][4];
    jc := Jacobian([[pqPq.rr, pqPq.ri, pqPv.rr, pqPv.ri, old0],
                    [pqPq.ir, pqPq.ii, pqPv.ir, pqPv.ii, old1],
                    [pvPq.rr, pvPq.ri, pvPv.rr, pvPv.ri, old2],
                    [pvPq.ir, pvPq.ii, pvPv.ir, pvPv.ii, old3]]);
    assert forall i :: 0 <= i < 4 ==> Fits(jc0.blocks[i][4], BlockRows(nPq, nPv, i), nPv);
  }

  /** Every quadrant of Jc, initJcBlock of the rows rs and columns cs of G and B, acts on
      (Vr, Vi) of its column group as -Y restricted to those rows and columns. */
  lemma JcBlockIsMinusY(g: Mat, b: Mat, n: nat, rs: seq<nat>, cs: seq<nat>, r: nat, c: nat, v: Complex)
    requires Shaped(g, n, n) && Shaped(b, n, n)
    requires forall j :: 0 <= j < |rs| ==> rs[j] < n
    requires forall j :: 0 <= j < |cs| ==> cs[j] < n
    requires r < |rs| && c < |cs|
    ensures var f := JcBlock(g, b, n, rs, cs);
      Shaped(f.rr, |rs|, |cs|) && Shaped(f.ri, |rs|, |cs|) && Shaped(f.ir, |rs|, |cs|) && Shaped(f.ii, |rs|, |cs|) &&
      Complex(f.rr[r][c] * v.re + f.ri[r][c] * v.im, f.ir[r][c] * v.re + f.ii[r][c] * v.im)
        == CNeg(CMul(Complex(g[rs[r]][cs[c]], b[rs[r]][cs[c]]), v))
  {
    var gs, bs := Sub(g, n, rs, cs), Sub(b, n, rs, cs);
    InitJcBlockIsMinusY(gs, bs, |rs|, |cs|, r, c, v);
  }

  // ---------------------------------------------------------------------------------------
  // updateJ: J = Jc plus the diagonal terms that depend on the current V, P and Q.
  // ---------------------------------------------------------------------------------------

  /** m with its first t diagonal entries replaced by d. */
  function SetDiagUpTo(m: Mat, d: seq<real>, t: nat): (r: Mat)
    requires Shaped(m, |d|, |d|) && t <= |d|
    ensures Shaped(r, |d|, |d|)
  {
    seq(|m|, i requires 0 <= i < |m| => seq(|m[i]|, k requires 0 <= k < |m[i]| =>
      if i == k && i < t then d[i] else m[i][k]))
  }

  function SetDiag(m: Mat, d: seq<real>): Mat
    requires Shaped(m, |d|, |d|)
  {
    SetDiagUpTo(m, d, |d|)
  }

  lemma SetDiagStep(m: Mat, d: seq<real>, t: nat)
    requires Shaped(m, |d|, |d|) && t < |d|
    ensures SetAt(SetDiagUpTo(m, d, t), t, t, d[t]) == SetDiagUpTo(m, d, t + 1)
  {
    var a, b := SetAt(SetDiagUpTo(m, d, t), t, t, d[t]), SetDiagUpTo(m, d, t + 1);
    forall i | 0 <= i < |d| ensures a[i] == b[i] { }
  }

  /** Writing the same diagonal twice is writing it once. */
  lemma SetDiagIdempotent(m: Mat, d: seq<real>)
    requires Shaped(m, |d|, |d|)
    ensures SetDiag(SetDiag(m, d), d) == SetDiag(m, d)
  {
    var a, b := SetDiag(SetDiag(m, d), d), SetDiag(m, d);
    forall i | 0 <= i < |d| ensures a[i] == b[i] { }
  }

  /** The terms updateJ adds to the four PQ diagonal entries of node (vr, vi, p, q). */
  function PqTerms(vr: real, vi: real, p: real, q: real): seq<real>
    requires vr * vr + vi * vi != 0.0
  {
    var pVrQVi := p * vr + q * vi;
    var pViQVr := p * vi - q * vr;
    var m2 := vr * vr + vi * vi;
    var vrdM4 := vr / m2 / m2;
    var vidM4 := vi / m2 / m2;
    [- 2.0 * vrdM4 * pVrQVi + p / m2,
     - 2.0 * vidM4 * pVrQVi + q / m2,
     - 2.0 * vrdM4 * pViQVr - q / m2,
     - 2.0 * vidM4 * pViQVr + p / m2]
  }

  /** The terms updateJ adds to the four PV diagonal entries; M^2 is held fixed at m2. */
  function PvTerms(p: real, q: real, m2: real): seq<real>
    requires m2 != 0.0
  {
    [p / m2, q / m2, - q / m2, p / m2]
  }

  /** The node data updateJ reads, with the preconditions under which its divisions are
      defined: every PQ node has nonzero |V| and every PV node a nonzero fixed |V|^2. */
  predicate NodeData(n: nat, selPq: seq<nat>, selPv: seq<nat>, vr: seq<real>, vi: seq<real>,
                     p: seq<real>, q: seq<real>, m2Pv: seq<real>)
  {
    |vr| == n && |vi| == n && |p| == n && |q| == n && |m2Pv| == |selPv| &&
    (forall t :: 0 <= t < |selPq| ==> selPq[t] < n) &&
    (forall t :: 0 <= t < |selPv| ==> selPv[t] < n) &&
    (forall t :: 0 <= t < |selPq| ==> vr[selPq[t]] * vr[selPq[t]] + vi[selPq[t]] * vi[selPq[t]] != 0.0) &&
    (forall t :: 0 <= t < |selPv| ==> m2Pv[t] != 0.0)
  }

  lemma SquareFits(m: Mat, n: nat)
    requires Fits(m, n, n)
    ensures Shaped(m, n, n)
  {
  }

  /** The diagonal that updateJ writes into block [i][k], or None when it writes none. */
  function Diagonal(jc: Jacobian, selPq: seq<nat>, selPv: seq<nat>, vr: seq<real>, vi: seq<real>,
                    p: seq<real>, q: seq<real>, m2Pv: seq<real>, i: nat, k: nat): (d: Option<seq<real>>)
    requires JacobianShaped(jc, |selPq|, |selPv|) && i < 4 && k < 5
    requires NodeData(|vr|, selPq, selPv, vr, vi, p, q, m2Pv)
    ensures d.Some? <==> (i < 2 && k < 2) || (2 <= i && 2 <= k)
    ensures d.Some? ==> |d.value| == BlockRows(|selPq|, |selPv|, i)
  {
    var nPq, nPv := |selPq|, |selPv|;
    var blk := jc.blocks[i][k];
    if i < 2 && k < 2 then
      SquareFits(blk, nPq);
      Some(seq(nPq, t requires 0 <= t < nPq =>
        blk[t][t] + PqTerms(vr[selPq[t]], vi[selPq[t]], p[selPq[t]], q[selPq[t]])[2 * i + k]))
    else if 2 <= i && 2 <= k < 4 then
      SquareFits(blk, nPv);
      Some(seq(nPv, t requires 0 <= t < nPv =>
        blk[t][t] + PvTerms(p[selPv[t]], q[selPv[t]], m2Pv[t])[2 * (i - 2) + (k - 2)]))
    else if 2 <= i && k == 4 then
      Some(seq(nPv, t requires 0 <= t < nPv =>
        if i == 2 then vi[selPv[t]] / m2Pv[t] else - vr[selPv[t]] / m2Pv[t]))
    else None
  }

  /** The block updateJ starts block [i][k] from: the PV Vi column blocks are reset to Jc's
      when there are PV nodes, every other block is kept. */
  function ResetBase(J: Jacobian, jc: Jacobian, nPv: nat, i: nat, k: nat): Mat
    requires |J.blocks| == 4 && (forall i' :: 0 <= i' < 4 ==> |J.blocks[i']| == 5)
    requires |jc.blocks| == 4 && (forall i' :: 0 <= i' < 4 ==> |jc.blocks[i']| == 5)
    requires i < 4 && k < 5
  {
    if nPv > 0 && k == 3 then jc.blocks[i][3] else J.blocks[i][k]
  }

  /** What updateJ leaves in block [i][k] of J: its starting block, with the diagonal of the
      PQ-PQ, PV-PV and PV-QPv blocks overwritten. */
  function UpdatedBlock(J: Jacobian, jc: Jacobian, selPq: seq<nat>, selPv: seq<nat>, vr: seq<real>,
                        vi: seq<real>, p: seq<real>, q: seq<real>, m2Pv: seq<real>, i: nat, k: nat): Mat
    requires JacobianShaped(J, |selPq|, |selPv|) && JacobianShaped(jc, |selPq|, |selPv|)
    requires i < 4 && k < 5
    requires NodeData(|vr|, selPq, selPv, vr, vi, p, q, m2Pv)
  {
    var base := ResetBase(J, jc, |selPv|, i, k);
    match Diagonal(jc, selPq, selPv, vr, vi, p, q, m2Pv, i, k)
    case None => base
    case Some(d) =>
      SquareFits(base, |d|);
      SetDiag(base, d)
  }

  /** updateJ, written as the source's reset followed by its three loops over PQ nodes, PV
      nodes and PV Q columns. */
  method UpdateJ(J: Jacobian, jc: Jacobian, selPq: seq<nat>, selPv: seq<nat>, vr: seq<real>,
                 vi: seq<real>, p: seq<real>, q: seq<real>, m2Pv: seq<real>) returns (J': Jacobian)
    requires JacobianShaped(J, |selPq|, |selPv|) && JacobianShaped(jc, |selPq|, |selPv|)
    requires NodeData(|vr|, selPq, selPv, vr, vi, p, q, m2Pv)
    ensures JacobianShaped(J', |selPq|, |selPv|)
    ensures forall i, k :: 0 <= i < 4 && 0 <= k < 5 ==>
      J'.blocks[i][k] == UpdatedBlock(J, jc, selPq, selPv, vr, vi, p, q, m2Pv, i, k)
  {
    var nPq, nPv := |selPq|, |selPv|;
    var J1 := ResetPvColumns(J, jc, nPq, nPv);
    SquareFits(J1.blocks[0][0], nPq);
    SquareFits(J1.blocks[0][1], nPq);
    SquareFits(J1.blocks[1][0], nPq);
    SquareFits(J1.blocks[1][1], nPq);
    SquareFits(J1.blocks[2][2], nPv);
    SquareFits(J1.blocks[2][3], nPv);
    SquareFits(J1.blocks[3][2], nPv);
    SquareFits(J1.blocks[3][3], nPv);
    SquareFits(J1.blocks[2][4], nPv);
    SquareFits(J1.blocks[3][4], nPv);
    var pq := PqDiagonals(RealForm(J1.blocks[0][0], J1.blocks[0][1], J1.blocks[1][0], J1.blocks[1][1]),
                          jc, selPq, selPv, vr, vi, p, q, m2Pv);
    var pv := PvDiagonals(RealForm(J1.blocks[2][2], J1.blocks[2][3], J1.blocks[3][2], J1.blocks[3][3]),
                          jc, selPq, selPv, vr, vi, p, q, m2Pv);
    var qr, qi := J1.blocks[2][4], J1.blocks[3][4];
    if nPv > 0 {
      qr, qi := QPvDiagonals(qr, qi, selPv, vr, vi, m2Pv);
    } else {
      assert SetDiag(qr, []) == qr && SetDiag(qi, []) == qi;
    }
    J' := AssembleJ(J, jc, selPq, selPv, vr, vi, p, q, m2Pv, J1, pq, pv, qr, qi);
  }

  /** The blocks updateJ's loops wrote, put back in their places in J. */
  method AssembleJ(J: Jacobian, jc: Jacobian, selPq: seq<nat>, selPv: seq<nat>, vr: seq<real>,
                   vi: seq<real>, p: seq<real>, q: seq<real>, m2Pv: seq<real>,
                   J1: Jacobian, pq: RealForm, pv: RealForm, qr: Mat, qi: Mat) returns (J': Jacobian)
    requires JacobianShaped(J, |selPq|, |selPv|) && JacobianShaped(jc, |selPq|, |selPv|)
    requires NodeData(|vr|, selPq, selPv, vr, vi, p, q, m2Pv)
    requires JacobianShaped(J1, |selPq|, |selPv|)
    requires forall i, k :: 0 <= i < 4 && 0 <= k < 5 ==> J1.blocks[i][k] == ResetBase(J, jc, |selPv|, i, k)
    requires Shaped(J1.blocks[0][0], |selPq|, |selPq|) && Shaped(J1.blocks[0][1], |selPq|, |selPq|)
    requires Shaped(J1.blocks[1][0], |selPq|, |selPq|) && Shaped(J1.blocks[1][1], |selPq|, |selPq|)
    requires Shaped(J1.blocks[2][2], |selPv|, |selPv|) && Shaped(J1.blocks[2][3], |selPv|, |selPv|)
    requires Shaped(J1.blocks[3][2], |selPv|, |selPv|) && Shaped(J1.blocks[3][3], |selPv|, |selPv|)
    requires Shaped(J1.blocks[2][4], |selPv|, |selPv|) && Shaped(J1.blocks[3][4], |selPv|, |selPv|)
    requires pq.rr == SetDiag(J1.blocks[0][0], Diagonal(jc, selPq, selPv, vr, vi, p, q, m2Pv, 0, 0).value)
    requires pq.ri == SetDiag(J1.blocks[0][1], Diagonal(jc, selPq, selPv, vr, vi, p, q, m2Pv, 0, 1).value)
    requires pq.ir == SetDiag(J1.blocks[1][0], Diagonal(jc, selPq, selPv, vr, vi, p, q, m2Pv, 1, 0).value)
    requires pq.ii == SetDiag(J1.blocks[1][1], Diagonal(jc, selPq, selPv, vr, vi, p, q, m2Pv, 1, 1).value)
    requires pv.rr == SetDiag(J1.blocks[2][2], Diagonal(jc, selPq, selPv, vr, vi, p, q, m2Pv, 2, 2).value)
    requires pv.ri == SetDiag(J1.blocks[2][3], Diagonal(jc, selPq, selPv, vr, vi, p, q, m2Pv, 2, 3).value)
    requires pv.ir == SetDiag(J1.blocks[3][2], Diagonal(jc, selPq, selPv, vr, vi, p, q, m2Pv, 3, 2).value)
    requires pv.ii == SetDiag(J1.blocks[3][3], Diagonal(jc, selPq, selPv, vr, vi, p, q, m2Pv, 3, 3).value)
    requires qr == SetDiag(J1.blocks[2][4], Diagonal(jc, selPq, selPv, vr, vi, p, q, m2Pv, 2, 4).value)
    requires qi == SetDiag(J1.blocks[3][4], Diagonal(jc, selPq, selPv, vr, vi, p, q, m2Pv, 3, 4).value)
    ensures JacobianShaped(J', |selPq|, |selPv|)
    ensures forall i, k :: 0 <= i < 4 && 0 <= k < 5 ==>
      J'.blocks[i][k] == UpdatedBlock(J, jc, selPq, selPv, vr, vi, p, q, m2Pv, i, k)
  {
    J' := Jacobian([[pq.rr, pq.ri, J1.blocks[0][2], J1.blocks[0][3], J1.blocks[0][4]],
                    [pq.ir, pq.ii, J1.blocks[1][2], J1.blocks[1][3], J1.blocks[1][4]],
                    [J1.blocks[2][0], J1.blocks[2][1], pv.rr, pv.ri, qr],
                    [J1.blocks[3][0], J1.blocks[3][1], pv.ir, pv.ii, qi]]);
    forall i, k | 0 <= i < 4 && 0 <= k < 5
      ensures J'.blocks[i][k] == UpdatedBlock(J, jc, selPq, selPv, vr, vi, p, q, m2Pv, i, k)
    {
      var d := Diagonal(jc, selPq, selPv, vr, vi, p, q, m2Pv, i, k);
      if d.Some? {
        SquareFits(J1.blocks[i][k], |d.value|);
        assert J'.blocks[i][k] == SetDiag(J1.blocks[i][k], d.value);
      } else {
        assert J'.blocks[i][k] == J1.blocks[i][k];
      }
    }
  }

  /** The reset at the head of updateJ: with PV nodes present, the PV Vi columns, which
      modifyForPv changes, are copied back from the constant part Jc. */
  method ResetPvColumns(J: Jacobian, jc: Jacobian, nPq: nat, nPv: nat) returns (J1: Jacobian)
    requires JacobianShaped(J, nPq, nPv) && JacobianShaped(jc, nPq, nPv)
    ensures JacobianShaped(J1, nPq, nPv)
    ensures forall i, k :: 0 <= i < 4 && 0 <= k < 5 ==> J1.blocks[i][k] == ResetBase(J, jc, nPv, i, k)
  {
    J1 := J;
    if nPv > 0 {
      J1 := Jacobian(J1.blocks[0 := J1.blocks[0][3 := jc.blocks[0][3]]]
                               [1 := J1.blocks[1][3 := jc.blocks[1][3]]]
                               [2 := J1.blocks[2][3 := jc.blocks[2][3]]]
                               [3 := J1.blocks[3][3 := jc.blocks[3][3]]]);
    }
    assert forall i, k :: 0 <= i < 4 && 0 <= k < 5 ==> J1.blocks[i][k] == ResetBase(J, jc, nPv, i, k);
  }

  /** The PQ loop of updateJ on the PQ-PQ quadrant. */
  method PqDiagonals(f: RealForm, jc: Jacobian, selPq: seq<nat>, selPv: seq<nat>, vr: seq<real>,
                     vi: seq<real>, p: seq<real>, q: seq<real>, m2Pv: seq<real>) returns (f': RealForm)
    requires JacobianShaped(jc, |selPq|, |selPv|)
    requires NodeData(|vr|, selPq, selPv, vr, vi, p, q, m2Pv)
    requires Shaped(f.rr, |selPq|, |selPq|) && Shaped(f.ri, |selPq|, |selPq|)
    requires Shaped(f.ir, |selPq|, |selPq|) && Shaped(f.ii, |selPq|, |selPq|)
    ensures f'.rr == SetDiag(f.rr, Diagonal(jc, selPq, selPv, vr, vi, p, q, m2Pv, 0, 0).value)
    ensures f'.ri == SetDiag(f.ri, Diagonal(jc, selPq, selPv, vr, vi, p, q, m2Pv, 0, 1).value)
    ensures f'.ir == SetDiag(f.ir, Diagonal(jc, selPq, selPv, vr, vi, p, q, m2Pv, 1, 0).value)
    ensures f'.ii == SetDiag(f.ii, Diagonal(jc, selPq, selPv, vr, vi, p, q, m2Pv, 1, 1).value)
  {
    var dRr := Diagonal(jc, selPq, selPv, vr, vi, p, q, m2Pv, 0, 0).value;
    var dRi := Diagonal(jc, selPq, selPv, vr, vi, p, q, m2Pv, 0, 1).value;
    var dIr := Diagonal(jc, selPq, selPv, vr, vi, p, q, m2Pv, 1, 0).value;
    var dIi := Diagonal(jc, selPq, selPv, vr, vi, p, q, m2Pv, 1, 1).value;
    SquareFits(jc.blocks[0][0], |selPq|);
    SquareFits(jc.blocks[0][1], |selPq|);
    SquareFits(jc.blocks[1][0], |selPq|);
    SquareFits(jc.blocks[1][1], |selPq|);
    var rr, ri, ir, ii := SetDiagUpTo(f.rr, dRr, 0), SetDiagUpTo(f.ri, dRi, 0),
                          SetDiagUpTo(f.ir, dIr, 0), SetDiagUpTo(f.ii, dIi, 0);
    for t := 0 to |selPq|
      invariant rr == SetDiagUpTo(f.rr, dRr, t) && ri == SetDiagUpTo(f.ri, dRi, t)
      invariant ir == SetDiagUpTo(f.ir, dIr, t) && ii == SetDiagUpTo(f.ii, dIi, t)
    {
      var vals := PqDiagonalsAt(jc, selPq, selPv, vr, vi, p, q, m2Pv, t);
      SetDiagStep(f.rr, dRr, t);
      SetDiagStep(f.ri, dRi, t);
      SetDiagStep(f.ir, dIr, t);
      SetDiagStep(f.ii, dIi, t);
      rr := SetAt(rr, t, t, vals[0]);
      ri := SetAt(ri, t, t, vals[1]);
      ir := SetAt(ir, t, t, vals[2]);
      ii := SetAt(ii, t, t, vals[3]);
    }
    f' := RealForm(rr, ri, ir, ii);
  }

  /** The four diagonal entries the PQ loop writes for PQ node t: Jc's entries plus the
      PQ terms of the node. */
  method PqDiagonalsAt(jc: Jacobian, selPq: seq<nat>, selPv: seq<nat>, vr: seq<real>,
                       vi: seq<real>, p: seq<real>, q: seq<real>, m2Pv: seq<real>, t: nat) returns (vals: seq<real>)
    requires JacobianShaped(jc, |selPq|, |selPv|)
    requires NodeData(|vr|, selPq, selPv, vr, vi, p, q, m2Pv) && t < |selPq|
    ensures |vals| == 4
    ensures vals[0] == Diagonal(jc, selPq, selPv, vr, vi, p, q, m2Pv, 0, 0).value[t]
    ensures vals[1] == Diagonal(jc, selPq, selPv, vr, vi, p, q, m2Pv, 0, 1).value[t]
    ensures vals[2] == Diagonal(jc, selPq, selPv, vr, vi, p, q, m2Pv, 1, 0).value[t]
    ensures vals[3] == Diagonal(jc, selPq, selPv, vr, vi, p, q, m2Pv, 1, 1).value[t]
  {
    var j := selPq[t];
    var terms := PqTerms(vr[j], vi[j], p[j], q[j]);
    SquareFits(jc.blocks[0][0], |selPq|);
    SquareFits(jc.blocks[0][1], |selPq|);
    SquareFits(jc.blocks[1][0], |selPq|);
    SquareFits(jc.blocks[1][1], |selPq|);
    vals := [jc.blocks[0][0][t][t] + terms[0], jc.blocks[0][1][t][t] + terms[1],
             jc.blocks[1][0][t][t] + terms[2], jc.blocks[1][1][t][t] + terms[3]];
  }

  /** The PV loop of updateJ on the PV-PV quadrant. */
  method PvDiagonals(f: RealForm, jc: Jacobian, selPq: seq<nat>, selPv: seq<nat>, vr: seq<real>,
                     vi: seq<real>, p: seq<real>, q: seq<real>, m2Pv: seq<real>) returns (f': RealForm)
    requires JacobianShaped(jc, |selPq|, |selPv|)
    requires NodeData(|vr|, selPq, selPv, vr, vi, p, q, m2Pv)
    requires Shaped(f.rr, |selPv|, |selPv|) && Shaped(f.ri, |selPv|, |selPv|)
    requires Shaped(f.ir, |selPv|, |selPv|) && Shaped(f.ii, |selPv|, |selPv|)
    ensures f'.rr == SetDiag(f.rr, Diagonal(jc, selPq, selPv, vr, vi, p, q, m2Pv, 2, 2).value)
    ensures f'.ri == SetDiag(f.ri, Diagonal(jc, selPq, selPv, vr, vi, p, q, m2Pv, 2, 3).value)
    ensures f'.ir == SetDiag(f.ir, Diagonal(jc, selPq, selPv, vr, vi, p, q, m2Pv, 3, 2).value)
    ensures f'.ii == SetDiag(f.ii, Diagonal(jc, selPq, selPv, vr, vi, p, q, m2Pv, 3, 3).value)
  {
    var dRr := Diagonal(jc, selPq, selPv, vr, vi, p, q, m2Pv, 2, 2).value;
    var dRi := Diagonal(jc, selPq, selPv, vr, vi, p, q, m2Pv, 2, 3).value;
    var dIr := Diagonal(jc, selPq, selPv, vr, vi, p, q, m2Pv, 3, 2).value;
    var dIi := Diagonal(jc, selPq, selPv, vr, vi, p, q, m2Pv, 3, 3).value;
    SquareFits(jc.blocks[2][2], |selPv|);
    SquareFits(jc.blocks[2][3], |selPv|);
    SquareFits(jc.blocks[3][2], |selPv|);
    SquareFits(jc.blocks[3][3], |selPv|);
    var rr, ri, ir, ii := SetDiagUpTo(f.rr, dRr, 0), SetDiagUpTo(f.ri, dRi, 0),
                          SetDiagUpTo(f.ir, dIr, 0), SetDiagUpTo(f.ii, dIi, 0);
    for t := 0 to |selPv|
      invariant rr == SetDiagUpTo(f.rr, dRr, t) && ri == SetDiagUpTo(f.ri, dRi, t)
      invariant ir == SetDiagUpTo(f.ir, dIr, t) && ii == SetDiagUpTo(f.ii, dIi, t)
    {
      var vals := PvDiagonalsAt(jc, selPq, selPv, vr, vi, p, q, m2Pv, t);
      SetDiagStep(f.rr, dRr, t);
      SetDiagStep(f.ri, dRi, t);
      SetDiagStep(f.ir, dIr, t);
      SetDiagStep(f.ii, dIi, t);
      rr := SetAt(rr, t, t, vals[0]);
      ri := SetAt(ri, t, t, vals[1]);
      ir := SetAt(ir, t, t, vals[2]);
      ii := SetAt(ii, t, t, vals[3]);
    }
    f' := RealForm(rr, ri, ir, ii);
  }

  /** The four diagonal entries the PV loop writes for PV node t: Jc's entries plus the
      PV terms of the node. */
  method PvDiagonalsAt(jc: Jacobian, selPq: seq<nat>, selPv: seq<nat>, vr: seq<real>,
                       vi: seq<real>, p: seq<real>, q: seq<real>, m2Pv: seq<real>, t: nat) returns (vals: seq<real>)
    requires JacobianShaped(jc, |selPq|, |selPv|)
    requires NodeData(|vr|, selPq, selPv, vr, vi, p, q, m2Pv) && t < |selPv|
    ensures |vals| == 4
    ensures vals[0] == Diagonal(jc, selPq, selPv, vr, vi, p, q, m2Pv, 2, 2).value[t]
    ensures vals[1] == Diagonal(jc, selPq, selPv, vr, vi, p, q, m2Pv, 2, 3).value[t]
    ensures vals[2] == Diagonal(jc, selPq, selPv, vr, vi, p, q, m2Pv, 3, 2).value[t]
    ensures vals[3] == Diagonal(jc, selPq, selPv, vr, vi, p, q, m2Pv, 3, 3).value[t]
  {
    var j := selPv[t];
    var terms := PvTerms(p[j], q[j], m2Pv[t]);
    SquareFits(jc.blocks[2][2], |selPv|);
    SquareFits(jc.blocks[2][3], |selPv|);
    SquareFits(jc.blocks[3][2], |selPv|);
    SquareFits(jc.blocks[3][3], |selPv|);
    vals := [jc.blocks[2][2][t][t] + terms[0], jc.blocks[2][3][t][t] + terms[1],
             jc.blocks[3][2][t][t] + terms[2], jc.blocks[3][3][t][t] + terms[3]];
  }

  /** The last loop of updateJ: the PV Q columns are diagonal, Vi/M^2 and -Vr/M^2. */
  method QPvDiagonals(mr: Mat, mi: Mat, selPv: seq<nat>, vr: seq<real>, vi: seq<real>, m2Pv: seq<real>)
    returns (mr': Mat, mi': Mat)
    requires Shaped(mr, |selPv|, |selPv|) && Shaped(mi, |selPv|, |selPv|)
    requires |m2Pv| == |selPv| && forall t :: 0 <= t < |selPv| ==> selPv[t] < |vr| && selPv[t] < |vi| && m2Pv[t] != 0.0
    ensures mr' == SetDiag(mr, seq(|selPv|, t requires 0 <= t < |selPv| => vi[selPv[t]] / m2Pv[t]))
    ensures mi' == SetDiag(mi, seq(|selPv|, t requires 0 <= t < |selPv| => - vr[selPv[t]] / m2Pv[t]))
  {
    var dr := seq(|selPv|, t requires 0 <= t < |selPv| => vi[selPv[t]] / m2Pv[t]);
    var di := seq(|selPv|, t requires 0 <= t < |selPv| => - vr[selPv[t]] / m2Pv[t]);
    mr', mi' := SetDiagUpTo(mr, dr, 0), SetDiagUpTo(mi, di, 0);
    for t := 0 to |selPv|
      invariant mr' == SetDiagUpTo(mr, dr, t) && mi' == SetDiagUpTo(mi, di, t)
    {
      SetDiagStep(mr, dr, t);
      SetDiagStep(mi, di, t);
      mr' := SetAt(mr', t, t, vi[selPv[t]] / m2Pv[t]);
      mi' := SetAt(mi', t, t, - vr[selPv[t]] / m2Pv[t]);
    }
  }

  /** Refreshing J twice with the same state gives what refreshing it once gives: nothing
      accumulates across iterations in the blocks updateJ owns. */
  lemma UpdateJIdempotent(J: Jacobian, J2: Jacobian, jc: Jacobian, selPq: seq<nat>, selPv: seq<nat>,
                          vr: seq<real>, vi: seq<real>, p: seq<real>, q: seq<real>, m2Pv: seq<real>, i: nat, k: nat)
    requires JacobianShaped(J, |selPq|, |selPv|) && JacobianShaped(J2, |selPq|, |selPv|)
    requires JacobianShaped(jc, |selPq|, |selPv|)
    requires NodeData(|vr|, selPq, selPv, vr, vi, p, q, m2Pv)
    requires forall i', k' :: 0 <= i' < 4 && 0 <= k' < 5 ==>
      J2.blocks[i'][k'] == UpdatedBlock(J, jc, selPq, selPv, vr, vi, p, q, m2Pv, i', k')
    requires i < 4 && k < 5
    ensures UpdatedBlock(J2, jc, selPq, selPv, vr, vi, p, q, m2Pv, i, k)
      == UpdatedBlock(J, jc, selPq, selPv, vr, vi, p, q, m2Pv, i, k)
  {
    var base := ResetBase(J, jc, |selPv|, i, k);
    match Diagonal(jc, selPq, selPv, vr, vi, p, q, m2Pv, i, k)
    case None =>
    case Some(d) =>
      SquareFits(base, |d|);
      SetDiagIdempotent(base, d);
  }

  /** When there are PV nodes, whatever happened to the PV Vi column blocks of J since the
      last refresh (modifyForPv folds the VrPv columns into them) is forgotten. */
  lemma UpdateJForgetsViPvChanges(J1: Jacobian, J2: Jacobian, jc: Jacobian, selPq: seq<nat>, selPv: seq<nat>,
                                  vr: seq<real>, vi: seq<real>, p: seq<real>, q: seq<real>, m2Pv: seq<real>, i: nat, k: nat)
    requires JacobianShaped(J1, |selPq|, |selPv|) && JacobianShaped(J2, |selPq|, |selPv|)
    requires JacobianShaped(jc, |selPq|, |selPv|)
    requires NodeData(|vr|, selPq, selPv, vr, vi, p, q, m2Pv)
    requires |selPv| > 0
    requires forall i', k' :: 0 <= i' < 4 && 0 <= k' < 5 && k' != 3 ==> J1.blocks[i'][k'] == J2.blocks[i'][k']
    requires i < 4 && k < 5
    ensures UpdatedBlock(J1, jc, selPq, selPv, vr, vi, p, q, m2Pv, i, k)
      == UpdatedBlock(J2, jc, selPq, selPv, vr, vi, p, q, m2Pv, i, k)
  {
  }

  // ---------------------------------------------------------------------------------------
  // calcJMatrix: scatter the blocks into one NVar x NVar matrix.
  // ---------------------------------------------------------------------------------------

  /** The block columns calcJMatrix reads; VrPv (2) is skipped because PV voltage magnitude
      is fixed, so VrPv is not an unknown. */
  const KbInd: seq<nat> := [0, 1, 3, 4]

  /** The entry of J that lands at (row, col) of the assembled matrix. */
  function JAt(J: Jacobian, nPq: nat, nPv: nat, row: nat, col: nat): real
    requires JacobianShaped(J, nPq, nPv) && row < NVar(nPq, nPv) && col < NVar(nPq, nPv)
  {
    var (ib, r) := RowOwner(nPq, row);
    var (kb, c) := ColOwner(nPq, col);
    assert Shaped(J.blocks[ib][KbInd[kb]], BlockRows(nPq, nPv, ib), BlockCols(nPq, nPv, KbInd[kb]));
    J.blocks[ib][KbInd[kb]][r][c]
  }

  predicate RowAdded(before: seq<real>, after: seq<real>, sl: seq<nat>, vals: seq<real>)
    requires |vals| == |sl|
  {
    |after| == |before| &&
    (forall c :: 0 <= c < |sl| && sl[c] < |before| ==> after[sl[c]] == before[sl[c]] + vals[c]) &&
    (forall j :: 0 <= j < |before| && j !in sl ==> after[j] == before[j])
  }

  /** One block row: after(sl[c]) += vals(c). */
  method AddAtPositions(before: seq<real>, sl: seq<nat>, vals: seq<real>) returns (after: seq<real>)
    requires |vals| == |sl| && Injective(sl)
    requires forall c :: 0 <= c < |sl| ==> sl[c] < |before|
    ensures RowAdded(before, after, sl, vals)
  {
    after := before;
    for c := 0 to |sl|
      invariant |after| == |before|
      invariant forall c' :: 0 <= c' < c ==> after[sl[c']] == before[sl[c']] + vals[c']
      invariant forall j :: 0 <= j < |before| && j !in sl[..c] ==> after[j] == before[j]
    {
      assert sl[..c + 1] == sl[..c] + [sl[c]];
      assert sl[c] !in sl[..c];
      after := after[sl[c] := after[sl[c]] + vals[c]];
    }
    assert sl[..|sl|] == sl;
  }

  predicate BlockPlaced(m: Mat, m': Mat, n: nat, sl1: seq<nat>, sl2: seq<nat>, block: Mat)
    requires Shaped(m, n, n) && Fits(block, |sl1|, |sl2|)
    requires forall r :: 0 <= r < |sl1| ==> sl1[r] < n
  {
    Shaped(m', n, n) &&
    (forall r :: 0 <= r < |block| ==> RowAdded(m[sl1[r]], m'[sl1[r]], sl2, block[r])) &&
    (forall row :: 0 <= row < n && row !in sl1[..|block|] ==> m'[row] == m[row])
  }

  /** One block: m(sl1(r), sl2(c)) += block(r, c). */
  method PlaceBlock(m: Mat, n: nat, sl1: seq<nat>, sl2: seq<nat>, block: Mat) returns (m': Mat)
    requires Shaped(m, n, n) && Fits(block, |sl1|, |sl2|)
    requires Injective(sl1) && Injective(sl2)
    requires forall r :: 0 <= r < |sl1| ==> sl1[r] < n
    requires forall c :: 0 <= c < |sl2| ==> sl2[c] < n
    ensures BlockPlaced(m, m', n, sl1, sl2, block)
  {
    m' := m;
    for r := 0 to |block|
      invariant Shaped(m', n, n)
      invariant forall r' :: 0 <= r' < r ==> RowAdded(m[sl1[r']], m'[sl1[r']], sl2, block[r'])
      invariant forall row :: 0 <= row < n && row !in sl1[..r] ==> m'[row] == m[row]
    {
      assert sl1[..r + 1] == sl1[..r] + [sl1[r]];
      assert sl1[r] !in sl1[..r];
      var newRow := AddAtPositions(m'[sl1[r]], sl2, block[r]);
      m' := m'[sl1[r] := newRow];
    }
  }

  function Before(rb: nat, cb: nat, ib: nat, kb: nat): bool
  {
    rb < ib || (rb == ib && cb < kb)
  }

  /** The blocks before (ib, kb), in calcJMatrix's order, are in m; the rest of m is zero. */
  predicate Placed(J: Jacobian, nPq: nat, nPv: nat, m: Mat, ib: nat, kb: nat)
    requires JacobianShaped(J, nPq, nPv)
  {
    Shaped(m, NVar(nPq, nPv), NVar(nPq, nPv)) &&
    forall row, col :: 0 <= row < NVar(nPq, nPv) && 0 <= col < NVar(nPq, nPv) ==>
      m[row][col] == if Before(RowOwner(nPq, row).0, ColOwner(nPq, col).0, ib, kb)
                     then JAt(J, nPq, nPv, row, col) else 0.0
  }

  /** One position of the matrix when block (ib, kb) is scattered into it: it gains the
      block's entry if the position's row and column belong to that block, and is kept
      otherwise. */
  lemma PlaceStepAt(J: Jacobian, nPq: nat, nPv: nat, m: Mat, m': Mat, ib: nat, kb: nat, row: nat, col: nat)
    requires JacobianShaped(J, nPq, nPv) && ib < 4 && kb < 4
    requires row < NVar(nPq, nPv) && col < NVar(nPq, nPv)
    requires Shaped(m, NVar(nPq, nPv), NVar(nPq, nPv))
    requires Fits(J.blocks[ib][KbInd[kb]], |FSel(nPq, nPv, ib)|, |XSel(nPq, nPv, kb)|)
    requires forall r :: 0 <= r < |FSel(nPq, nPv, ib)| ==> FSel(nPq, nPv, ib)[r] < NVar(nPq, nPv)
    requires BlockPlaced(m, m', NVar(nPq, nPv), FSel(nPq, nPv, ib), XSel(nPq, nPv, kb), J.blocks[ib][KbInd[kb]])
    ensures m'[row][col] == if RowOwner(nPq, row).0 == ib && ColOwner(nPq, col).0 == kb
                            then m[row][col] + JAt(J, nPq, nPv, row, col) else m[row][col]
  {
    var sl1, sl2, block := FSel(nPq, nPv, ib), XSel(nPq, nPv, kb), J.blocks[ib][KbInd[kb]];
    var (rb, r) := RowOwner(nPq, row);
    var (cb, c) := ColOwner(nPq, col);
    if rb == ib && cb == kb {
      assert m'[row][col] == m[row][col] + JAt(J, nPq, nPv, row, col) by {
        FSelPermutation(nPq, nPv);
        XSelPermutation(nPq, nPv);
        assert sl1[r] == row && sl2[c] == col;
        assert Shaped(block, |sl1|, |sl2|);
        assert RowAdded(m[sl1[r]], m'[sl1[r]], sl2, block[r]);
      }
    } else if rb == ib {
      assert m'[row][col] == m[row][col] by {
        FSelPermutation(nPq, nPv);
        XSelPermutation(nPq, nPv);
        assert sl1[r] == row;
        assert col !in sl2;
        if r < |block| {
          assert RowAdded(m[sl1[r]], m'[sl1[r]], sl2, block[r]);
        } else {
          assert row !in sl1[..|block|];
        }
      }
    } else {
      assert m'[row][col] == m[row][col] by {
        FSelPermutation(nPq, nPv);
        assert row !in sl1;
        assert row !in sl1[..|block|];
      }
    }
  }

  /** What scattering block (ib, kb) does to the whole matrix. */
  predicate Scattered(J: Jacobian, nPq: nat, nPv: nat, m: Mat, m': Mat, ib: nat, kb: nat)
    requires JacobianShaped(J, nPq, nPv)
    requires Shaped(m, NVar(nPq, nPv), NVar(nPq, nPv))
  {
    Shaped(m', NVar(nPq, nPv), NVar(nPq, nPv)) &&
    forall row, col :: 0 <= row < NVar(nPq, nPv) && 0 <= col < NVar(nPq, nPv) ==>
      m'[row][col] == if RowOwner(nPq, row).0 == ib && ColOwner(nPq, col).0 == kb
                      then m[row][col] + JAt(J, nPq, nPv, row, col) else m[row][col]
  }

  lemma BlockScattered(J: Jacobian, nPq: nat, nPv: nat, m: Mat, m': Mat, ib: nat, kb: nat)
    requires JacobianShaped(J, nPq, nPv) && ib < 4 && kb < 4
    requires Shaped(m, NVar(nPq, nPv), NVar(nPq, nPv))
    requires Fits(J.blocks[ib][KbInd[kb]], |FSel(nPq, nPv, ib)|, |XSel(nPq, nPv, kb)|)
    requires forall r :: 0 <= r < |FSel(nPq, nPv, ib)| ==> FSel(nPq, nPv, ib)[r] < NVar(nPq, nPv)
    requires BlockPlaced(m, m', NVar(nPq, nPv), FSel(nPq, nPv, ib), XSel(nPq, nPv, kb), J.blocks[ib][KbInd[kb]])
    ensures Scattered(J, nPq, nPv, m, m', ib, kb)
  {
    var n := NVar(nPq, nPv);
    forall row, col | 0 <= row < n && 0 <= col < n
      ensures m'[row][col] == if RowOwner(nPq, row).0 == ib && ColOwner(nPq, col).0 == kb
                              then m[row][col] + JAt(J, nPq, nPv, row, col) else m[row][col]
    {
      PlaceStepAt(J, nPq, nPv, m, m', ib, kb, row, col);
    }
  }

  lemma PlaceStep(J: Jacobian, nPq: nat, nPv: nat, m: Mat, m': Mat, ib: nat, kb: nat)
    requires JacobianShaped(J, nPq, nPv) && ib < 4 && kb < 4
    requires Placed(J, nPq, nPv, m, ib, kb)
    requires Scattered(J, nPq, nPv, m, m', ib, kb)
    ensures Placed(J, nPq, nPv, m', ib, kb + 1)
  {
  }

  /** Entry (r, c) of block [ib][KbInd[kb]] is found, unchanged, at (FSel(ib)[r], XSel(kb)[c]). */
  lemma EntryLandsOnce(J: Jacobian, nPq: nat, nPv: nat, jMat: Mat, ib: nat, kb: nat, r: nat, c: nat)
    requires JacobianShaped(J, nPq, nPv)
    requires Shaped(jMat, NVar(nPq, nPv), NVar(nPq, nPv))
    requires forall row, col :: 0 <= row < NVar(nPq, nPv) && 0 <= col < NVar(nPq, nPv) ==>
      jMat[row][col] == JAt(J, nPq, nPv, row, col)
    requires ib < 4 && kb < 4 && r < |FSel(nPq, nPv, ib)| && c < |XSel(nPq, nPv, kb)|
    ensures r < |J.blocks[ib][KbInd[kb]]| && c < |J.blocks[ib][KbInd[kb]][r]|
    ensures jMat[FSel(nPq, nPv, ib)[r]][XSel(nPq, nPv, kb)[c]] == J.blocks[ib][KbInd[kb]][r][c]
  {
    FSelPermutation(nPq, nPv);
    XSelPermutation(nPq, nPv);
    assert Shaped(J.blocks[ib][KbInd[kb]], BlockRows(nPq, nPv, ib), BlockCols(nPq, nPv, KbInd[kb]));
    var row, col := FSel(nPq, nPv, ib)[r], XSel(nPq, nPv, kb)[c];
    assert RowOwner(nPq, row) == (ib, r) && ColOwner(nPq, col) == (kb, c);
  }

  lemma {:induction false} AllEntriesLand(J: Jacobian, nPq: nat, nPv: nat, jMat: Mat)
    requires JacobianShaped(J, nPq, nPv)
    requires Shaped(jMat, NVar(nPq, nPv), NVar(nPq, nPv))
    requires forall row, col :: 0 <= row < NVar(nPq, nPv) && 0 <= col < NVar(nPq, nPv) ==>
      jMat[row][col] == JAt(J, nPq, nPv, row, col)
    ensures forall ib, kb, r, c ::
      (0 <= ib < 4 && 0 <= kb < 4 && 0 <= r < |FSel(nPq, nPv, ib)| && 0 <= c < |XSel(nPq, nPv, kb)|) ==>
      EntryAt(J, jMat, nPq, nPv, ib, kb, r, c)
  {
    forall ib, kb, r, c | 0 <= ib < 4 && 0 <= kb < 4 &&
      0 <= r < |FSel(nPq, nPv, ib)| && 0 <= c < |XSel(nPq, nPv, kb)|
      ensures EntryAt(J, jMat, nPq, nPv, ib, kb, r, c)
    {
      EntryLandsOnce(J, nPq, nPv, jMat, ib, kb, r, c);
    }
  }

  /** Entry (r, c) of block [ib][KbInd[kb]] is found, unchanged, at (FSel(ib)[r], XSel(kb)[c]). */
  predicate EntryAt(J: Jacobian, jMat: Mat, nPq: nat, nPv: nat, ib: nat, kb: nat, r: nat, c: nat)
    requires |J.blocks| == 4 && forall i :: 0 <= i < 4 ==> |J.blocks[i]| == 5
    requires ib < 4 && kb < 4 && r < |FSel(nPq, nPv, ib)| && c < |XSel(nPq, nPv, kb)|
    requires Shaped(jMat, NVar(nPq, nPv), NVar(nPq, nPv))
  {
    r < |J.blocks[ib][KbInd[kb]]| && c < |J.blocks[ib][KbInd[kb]][r]| &&
    jMat[FSel(nPq, nPv, ib)[r]][XSel(nPq, nPv, kb)[c]] == J.blocks[ib][KbInd[kb]][r][c]
  }

  /** Once every block row is placed, every entry holds J's. */
  lemma {:induction false} PlacedAll(J: Jacobian, nPq: nat, nPv: nat, jMat: Mat)
    requires JacobianShaped(J, nPq, nPv)
    requires Placed(J, nPq, nPv, jMat, 4, 0)
    ensures forall row, col :: 0 <= row < NVar(nPq, nPv) && 0 <= col < NVar(nPq, nPv) ==>
      jMat[row][col] == JAt(J, nPq, nPv, row, col)
  {
    var n := NVar(nPq, nPv);
    forall row, col | 0 <= row < n && 0 <= col < n
      ensures jMat[row][col] == JAt(J, nPq, nPv, row, col)
    {
      assert RowOwner(nPq, row).0 < 4;
    }
  }

  lemma PlacedNextRow(J: Jacobian, nPq: nat, nPv: nat, m: Mat, ib: nat)
    requires JacobianShaped(J, nPq, nPv)
    requires Placed(J, nPq, nPv, m, ib, 4)
    ensures Placed(J, nPq, nPv, m, ib + 1, 0)
  {
    var n := NVar(nPq, nPv);
    forall row, col | 0 <= row < n && 0 <= col < n
      ensures m[row][col] == if Before(RowOwner(nPq, row).0, ColOwner(nPq, col).0, ib + 1, 0)
                             then JAt(J, nPq, nPv, row, col) else 0.0
    {
      assert ColOwner(nPq, col).0 < 4;
    }
  }

  // ---------------------------------------------------------------------------------------
  // The solver object: its selectors and the assembly that reads them.
  // ---------------------------------------------------------------------------------------

  class NrSolver {
    var nPq: nat
    var nPv: nat
    var selIrPqFromF: seq<nat>
    var selIiPqFromF: seq<nat>
    var selIrPvFromF: seq<nat>
    var selIiPvFromF: seq<nat>
    var selVrPqFromX: seq<nat>
    var selViPqFromX: seq<nat>
    var selQPvFromX: seq<nat>
    var selViPvFromX: seq<nat>

    /** The selectors hold what init puts in them for the current node counts. */
    predicate Ready()
      reads this
    {
      selIrPqFromF == FSel(nPq, nPv, 0) && selIiPqFromF == FSel(nPq, nPv, 1) &&
      selIrPvFromF == FSel(nPq, nPv, 2) && selIiPvFromF == FSel(nPq, nPv, 3) &&
      selVrPqFromX == XSel(nPq, nPv, 0) && selViPqFromX == XSel(nPq, nPv, 1) &&
      selViPvFromX == XSel(nPq, nPv, 2) && selQPvFromX == XSel(nPq, nPv, 3)
    }

    constructor ()
      ensures nPq == 0 && nPv == 0 && Ready()
    {
      nPq, nPv := 0, 0;
      selIrPqFromF, selIiPqFromF, selIrPvFromF, selIiPvFromF := [], [], [], [];
      selVrPqFromX, selViPqFromX, selQPvFromX, selViPvFromX := [], [], [], [];
    }

    /** init: size and fill the eight selectors for a model with nPq PQ and nPv PV nodes. */
    method Init(nPq': nat, nPv': nat)
      modifies this
      ensures nPq == nPq' && nPv == nPv' && Ready()
    {
      var irPq, iiPq, irPv, iiPv: seq<nat> := [], [], [], [];
      var vrPq, viPq, qPv, viPv: seq<nat> := [], [], [], [];
      for i := 0 to nPq'
        invariant irPq == Strided(0, i, 1) && iiPq == Strided(0, i, 0)
      {
        irPq, iiPq := irPq + [2 * i + 1], iiPq + [2 * i];
      }
      for i := 0 to nPv'
        invariant irPv == Strided(2 * nPq', i, 1) && iiPv == Strided(2 * nPq', i, 0)
      {
        irPv, iiPv := irPv + [2 * nPq' + 2 * i + 1], iiPv + [2 * nPq' + 2 * i];
      }
      for i := 0 to nPq'
        invariant vrPq == Strided(0, i, 0) && viPq == Strided(0, i, 1)
      {
        vrPq, viPq := vrPq + [2 * i], viPq + [2 * i + 1];
      }
      for i := 0 to nPv'
        invariant qPv == Strided(2 * nPq', i, 0) && viPv == Strided(2 * nPq', i, 1)
      {
        qPv, viPv := qPv + [2 * nPq' + 2 * i], viPv + [2 * nPq' + 2 * i + 1];
      }
      nPq, nPv := nPq', nPv';
      selIrPqFromF, selIiPqFromF, selIrPvFromF, selIiPvFromF := irPq, iiPq, irPv, iiPv;
      selVrPqFromX, selViPqFromX, selQPvFromX, selViPvFromX := vrPq, viPq, qPv, viPv;
    }

    /** calcJMatrix: entry (r, c) of block [ib][KbInd[kb]] goes to (sl1[ib](r), sl2[kb](c));
        since the selectors number the rows and columns exactly once, every entry of the
        result comes from exactly one block entry, and nothing is summed. */
    method CalcJMatrix(J: Jacobian) returns (jMat: Mat)
      requires Ready() && JacobianShaped(J, nPq, nPv)
      ensures Shaped(jMat, NVar(nPq, nPv), NVar(nPq, nPv))
      ensures forall row, col :: 0 <= row < NVar(nPq, nPv) && 0 <= col < NVar(nPq, nPv) ==>
        jMat[row][col] == JAt(J, nPq, nPv, row, col)
      ensures forall ib, kb, r, c ::
        (0 <= ib < 4 && 0 <= kb < 4 && 0 <= r < |FSel(nPq, nPv, ib)| && 0 <= c < |XSel(nPq, nPv, kb)|) ==>
        EntryAt(J, jMat, nPq, nPv, ib, kb, r, c)
    {
      var n := NVar(nPq, nPv);
      jMat := ZeroMat(n, n);
      for ib := 0 to 4
        invariant Placed(J, nPq, nPv, jMat, ib, 0)
      {
        for kb := 0 to 4
          invariant Placed(J, nPq, nPv, jMat, ib, kb)
        {
          jMat := PlaceBlockAt(J, jMat, ib, kb);
        }
        PlacedNextRow(J, nPq, nPv, jMat, ib);
      }
      PlacedAll(J, nPq, nPv, jMat);
      AllEntriesLand(J, nPq, nPv, jMat);
    }

    /** One pass of calcJMatrix's inner loop: block [ib][KbInd[kb]] scattered through the
        selectors sl1[ib] and sl2[kb]. */
    method PlaceBlockAt(J: Jacobian, jMat: Mat, ib: nat, kb: nat) returns (next: Mat)
      requires Ready() && JacobianShaped(J, nPq, nPv) && ib < 4 && kb < 4
      requires Placed(J, nPq, nPv, jMat, ib, kb)
      ensures Placed(J, nPq, nPv, next, ib, kb + 1)
    {
      FSelPermutation(nPq, nPv);
      XSelPermutation(nPq, nPv);
      var sl1Vec := [selIrPqFromF, selIiPqFromF, selIrPvFromF, selIiPvFromF];
      var sl2Vec := [selVrPqFromX, selViPqFromX, selViPvFromX, selQPvFromX];
      assert sl1Vec[ib] == FSel(nPq, nPv, ib) && sl2Vec[kb] == XSel(nPq, nPv, kb);
      next := PlaceBlock(jMat, NVar(nPq, nPv), sl1Vec[ib], sl2Vec[kb], J.blocks[ib][KbInd[kb]]);
      BlockScattered(J, nPq, nPv, jMat, next, ib, kb);
      PlaceStep(J, nPq, nPv, jMat, next, ib, kb);
    }
  }

  // ---------------------------------------------------------------------------------------
  // The iteration and what it leaves in the nodes.
  // ---------------------------------------------------------------------------------------

  const Tol: real := 0.00000001
  const MaxIter: nat := 20

  /** The Newton loop's control flow.  errs[n] is the infinity norm of f at the start of
      iteration n and solved[n] whether the sparse solve of that iteration succeeded; the
      numerical work between them is not modelled.  niter is the iteration the loop stopped
      in, or MaxIter when it ran out. */
  method Iterate(errs: seq<real>, solved: seq<bool>) returns (wasSuccessful: bool, niter: nat)
    requires |errs| >= MaxIter && |solved| >= MaxIter
    ensures niter <= MaxIter
    ensures forall n :: 0 <= n < niter ==> errs[n] > Tol && solved[n]
    ensures wasSuccessful <==> niter < MaxIter && errs[niter] <= Tol
    ensures !wasSuccessful && niter < MaxIter ==> !solved[niter]
  {
    wasSuccessful := false;
    niter := 0;
    while niter < MaxIter
      invariant niter <= MaxIter
      invariant forall n :: 0 <= n < niter ==> errs[n] > Tol && solved[n]
    {
      if errs[niter] <= Tol {
        wasSuccessful := true;
        break;
      }
      if !solved[niter] {
        break;
      }
      niter := niter + 1;
    }
  }

  /** What the iteration leaves in the model vectors: Vr, Vi, P and Q of one iterate, and
      per node the slack power recomputed from that iterate's voltages for a slack node
      (V·conj(Y V) − V·conj(IConst), whose arithmetic is not modelled), or None. */
  datatype IterState = IterState(vr: seq<real>, vi: seq<real>, p: seq<real>, q: seq<real>,
                                 slackS: seq<Option<Complex>>)

  predicate StateShaped(st: IterState, nNode: nat)
  {
    |st.vr| == nNode && |st.vi| == nNode && |st.p| == nNode && |st.q| == nNode && |st.slackS| == nNode
  }

  /** The voltage and power node i gets from an iterate: a slack node the recomputed slack
      power, any other node its P and Q. */
  function NodeV(st: IterState, i: nat): Complex
    requires i < |st.vr| && i < |st.vi|
  {
    Complex(st.vr[i], st.vi[i])
  }

  function NodeS(st: IterState, i: nat): Complex
    requires i < |st.p| && i < |st.q| && i < |st.slackS|
  {
    match st.slackS[i]
    case Some(s) => s
    case None => Complex(st.p[i], st.q[i])
  }

  /** Node voltages and powers the solver leaves behind, as the code is written: the failure
      branch zeroes the nodes, but the model vectors are then refilled from Vr, Vi, P, Q, the
      slack power is recomputed, and all of it is copied back into the nodes, so the zeroing
      never survives. */
  method FinishAsWritten(wasSuccessful: bool, st: IterState, nNode: nat)
    returns (nodeV: seq<Complex>, nodeS: seq<Complex>)
    requires StateShaped(st, nNode)
    ensures |nodeV| == nNode && |nodeS| == nNode
    ensures forall i :: 0 <= i < nNode ==> nodeV[i] == NodeV(st, i) && nodeS[i] == NodeS(st, i)
  {
    nodeV := seq(nNode, _ => CZero);
    nodeS := seq(nNode, _ => CZero);
    if !wasSuccessful {
      for i := 0 to nNode
        invariant |nodeV| == nNode && |nodeS| == nNode
      {
        nodeV, nodeS := nodeV[i := CZero], nodeS[i := CZero];
      }
    }
    var modV, modS := seq(nNode, _ => CZero), seq(nNode, _ => CZero);
    for i := 0 to nNode
      invariant |modV| == nNode && |modS| == nNode
      invariant forall j :: 0 <= j < i ==> modV[j] == NodeV(st, j) && modS[j] == Complex(st.p[j], st.q[j])
    {
      modV, modS := modV[i := Complex(st.vr[i], st.vi[i])], modS[i := Complex(st.p[i], st.q[i])];
    }
    modS := SetSlackPower(modS, st);
    for i := 0 to nNode
      invariant |nodeV| == nNode && |nodeS| == nNode
      invariant forall j :: 0 <= j < i ==> nodeV[j] == modV[j] && nodeS[j] == modS[j]
    {
      nodeV, nodeS := nodeV[i := modV[i]], nodeS[i := modS[i]];
    }
  }

  /** "Set the slack power": the slack entries of the model's S vector replaced by the
      recomputed slack power, the others kept. */
  method SetSlackPower(s0: seq<Complex>, st: IterState) returns (s: seq<Complex>)
    requires StateShaped(st, |s0|)
    ensures |s| == |s0|
    ensures forall i :: 0 <= i < |s0| ==> s[i] == if st.slackS[i].Some? then st.slackS[i].value else s0[i]
  {
    s := s0;
    for i := 0 to |s0|
      invariant |s| == |s0|
      invariant forall j :: 0 <= j < |s0| ==> s[j] == if j < i && st.slackS[j].Some? then st.slackS[j].value else s0[j]
    {
      if st.slackS[i].Some? {
        s := s[i := st.slackS[i].value];
      }
    }
  }

  /** The failure branch as intended: when the iteration fails every node is left at zero
      voltage and power; when it succeeds the nodes get the converged values. */
  method Finish(wasSuccessful: bool, st: IterState, nNode: nat)
    returns (nodeV: seq<Complex>, nodeS: seq<Complex>)
    requires StateShaped(st, nNode)
    ensures |nodeV| == nNode && |nodeS| == nNode
    ensures !wasSuccessful ==> forall i :: 0 <= i < nNode ==> nodeV[i] == CZero && nodeS[i] == CZero
    ensures wasSuccessful ==> forall i :: 0 <= i < nNode ==> nodeV[i] == NodeV(st, i) && nodeS[i] == NodeS(st, i)
  {
    nodeV := seq(nNode, _ => CZero);
    nodeS := seq(nNode, _ => CZero);
    if wasSuccessful {
      for i := 0 to nNode
        invariant |nodeV| == nNode && |nodeS| == nNode
        invariant forall j :: 0 <= j < i ==> nodeV[j] == NodeV(st, j) && nodeS[j] == NodeS(st, j)
        invariant forall j :: i <= j < nNode ==> nodeV[j] == CZero && nodeS[j] == CZero
      {
        nodeV, nodeS := nodeV[i := NodeV(st, i)], nodeS[i := NodeS(st, i)];
      }
    }
  }

  /** solveProblem, end to end on the iteration record: states[n] is what the model holds
      at the start of iteration n (states[MaxIter] after the last one). */
  predicate StatesShaped(states: seq<IterState>, nNode: nat)
  {
    forall n :: 0 <= n < |states| ==> StateShaped(states[n], nNode)
  }

  /** The iteration converged: some iteration before the last saw an error within the
      tolerance, every one before it having solved. */
  predicate Converged(errs: seq<real>, solved: seq<bool>)
    requires |errs| >= MaxIter && |solved| >= MaxIter
  {
    exists n :: 0 <= n < MaxIter && errs[n] <= Tol && forall m :: 0 <= m < n ==> errs[m] > Tol && solved[m]
  }

  /** The success flag of the loop is exactly convergence. */
  lemma IterateConverged(errs: seq<real>, solved: seq<bool>, wasSuccessful: bool, niter: nat)
    requires |errs| >= MaxIter && |solved| >= MaxIter && niter <= MaxIter
    requires forall n :: 0 <= n < niter ==> errs[n] > Tol && solved[n]
    requires wasSuccessful <==> niter < MaxIter && errs[niter] <= Tol
    requires !wasSuccessful && niter < MaxIter ==> !solved[niter]
    ensures wasSuccessful <==> Converged(errs, solved)
  {
    if !wasSuccessful {
      forall n | 0 <= n < MaxIter && errs[n] <= Tol
        ensures exists m :: 0 <= m < n && !(errs[m] > Tol && solved[m])
      {
        if n < niter {
          assert false;
        } else if n == niter {
          assert false;
        } else {
          assert !(errs[niter] > Tol && solved[niter]);
        }
      }
    }
    if wasSuccessful {
      assert errs[niter] <= Tol;
    }
  }

  /** solveProblem as intended: a failed iteration leaves every node at zero. */
  method SolveProblem(errs: seq<real>, solved: seq<bool>, states: seq<IterState>, nNode: nat)
    returns (wasSuccessful: bool, nodeV: seq<Complex>, nodeS: seq<Complex>)
    requires |errs| >= MaxIter && |solved| >= MaxIter && |states| > MaxIter
    requires StatesShaped(states, nNode)
    ensures |nodeV| == nNode && |nodeS| == nNode
    ensures wasSuccessful <==> Converged(errs, solved)
    ensures !wasSuccessful ==> forall i :: 0 <= i < nNode ==> nodeV[i] == CZero && nodeS[i] == CZero
    ensures wasSuccessful ==>
              (exists n :: 0 <= n < MaxIter && errs[n] <= Tol &&
                 forall i :: 0 <= i < nNode ==> nodeV[i] == NodeV(states[n], i) && nodeS[i] == NodeS(states[n], i))
  {
    var niter;
    wasSuccessful, niter := Iterate(errs, solved);
    IterateConverged(errs, solved, wasSuccessful, niter);
    var final := states[niter];
    nodeV, nodeS := Finish(wasSuccessful, final, nNode);
  }

  /** solveProblem as written: a failed iteration leaves the nodes at the iterate the loop
      stopped in (the last one, or the one whose solve failed), not at zero. */
  method SolveProblemAsWritten(errs: seq<real>, solved: seq<bool>, states: seq<IterState>, nNode: nat)
    returns (wasSuccessful: bool, niter: nat, nodeV: seq<Complex>, nodeS: seq<Complex>)
    requires |errs| >= MaxIter && |solved| >= MaxIter && |states| > MaxIter
    requires StatesShaped(states, nNode)
    ensures |nodeV| == nNode && |nodeS| == nNode
    ensures wasSuccessful <==> Converged(errs, solved)
    ensures niter <= MaxIter && (!wasSuccessful ==> niter == MaxIter || !solved[niter])
    ensures forall i :: 0 <= i < nNode ==> nodeV[i] == NodeV(states[niter], i) && nodeS[i] == NodeS(states[niter], i)
  {
    wasSuccessful, niter := Iterate(errs, solved);
    IterateConverged(errs, solved, wasSuccessful, niter);
    var final := states[niter];
    nodeV, nodeS := FinishAsWritten(wasSuccessful, final, nNode);
  }

  /** The two readings part on a failed solve whose last iterate has a nonzero voltage:
      as written that voltage stays on its node, as intended the node is zeroed. */
  lemma {:induction false} FailureKeepsIterate(st: IterState, nNode: nat, i: nat, writtenV: seq<Complex>,
                                               intendedV: seq<Complex>)
    requires StateShaped(st, nNode) && i < nNode && (st.vr[i] != 0.0 || st.vi[i] != 0.0)
    requires |writtenV| == nNode && |intendedV| == nNode
    requires forall j :: 0 <= j < nNode ==> writtenV[j] == NodeV(st, j)
    requires forall j :: 0 <= j < nNode ==> intendedV[j] == CZero
    ensures writtenV != intendedV
  {
    assert writtenV[i] == NodeV(st, i);
    assert intendedV[i] == CZero;
  }
}
