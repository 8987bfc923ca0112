// The browser heatmap overlay: a triangulated n-by-n grid mesh, a
// piecewise-linear colormap and a Cauchy-kernel weighted average of samples.

module Heatmap {
  import opened Shared

  /** Grid size of the overlay (n x n grid points). */
  const N: nat := 32
  const NCols: nat := 256
  const SpreadVal: real := 0.05
  const SpreadAlpha: real := 0.03

  function NVert(n: nat): nat { n * n + (n - 1) * (n - 1) }
  function NTri(n: nat): nat { 4 * ((n - 1) * (n - 1)) }
  function NTriVert(n: nat): nat { 3 * NTri(n) }

  // ---------------------------------------------------------------- vertices

  function GridCoord(n: nat, i: real): real
    requires n >= 2
  {
    2.0 * i / ((n - 1) as real) - 1.0
  }

  function CenterCoord(n: nat, i: real): real
    requires n >= 2
  {
    GridCoord(n, i + 0.5)
  }

  /** Position (x, y, 0) of vertex v: the n*n corners in row-major order,
      then the (n-1)*(n-1) cell centres in row-major order. */
  function VertexXyz(n: nat, v: nat): seq<real>
    requires n >= 2
  {
    if v < n * n then
      [GridCoord(n, (v / n) as real), GridCoord(n, (v % n) as real), 0.0]
    else
      var c := v - n * n;
      [CenterCoord(n, (c / (n - 1)) as real), CenterCoord(n, (c % (n - 1)) as real), 0.0]
  }

  /** The flat vertex array holding vertices 0 .. m-1. */
  function VertexBuffer(n: nat, m: nat): seq<real>
    requires n >= 2
  {
    if m == 0 then [] else VertexBuffer(n, m - 1) + VertexXyz(n, m - 1)
  }

  lemma {:induction false} VertexBufferAt(n: nat, m: nat, v: nat)
    requires n >= 2 && v < m
    ensures |VertexBuffer(n, m)| == 3 * m
    ensures VertexBuffer(n, m)[3 * v .. 3 * v + 3] == VertexXyz(n, v)
  {
    if v < m - 1 {
      VertexBufferAt(n, m - 1, v);
    } else {
      VertexBufferLength(n, m - 1);
    }
  }

  lemma {:induction false} VertexBufferLength(n: nat, m: nat)
    requires n >= 2
    ensures |VertexBuffer(n, m)| == 3 * m
  {
    if m > 0 {
      VertexBufferLength(n, m - 1);
    }
  }

  /** Corner (i, j) is vertex i*n+j and sits on the grid spanning [-1, 1]. */
  lemma CornerVertex(n: nat, i: nat, j: nat)
    requires n >= 2 && i < n && j < n
    ensures i * n + j < n * n
    ensures VertexXyz(n, i * n + j) == [GridCoord(n, i as real), GridCoord(n, j as real), 0.0]
    ensures -1.0 <= GridCoord(n, i as real) <= 1.0
    ensures i == 0 ==> GridCoord(n, i as real) == -1.0
    ensures i == n - 1 ==> GridCoord(n, i as real) == 1.0
  {
    FlatIndexBound(i, j, n, n);
    DivModOf(i, j, n);
    GridCoordRange(n, i as real);
  }

  lemma GridCoordRange(n: nat, t: real)
    requires n >= 2 && 0.0 <= t <= (n - 1) as real
    ensures -1.0 <= GridCoord(n, t) <= 1.0
    ensures t == 0.0 ==> GridCoord(n, t) == -1.0
    ensures t == (n - 1) as real ==> GridCoord(n, t) == 1.0
    ensures 0.0 < t < (n - 1) as real ==> -1.0 < GridCoord(n, t) < 1.0
  {
    var d := (n - 1) as real;
    assert 2.0 * t / d * d == 2.0 * t;
  }

  lemma CornerStep(n: nat, i: nat, j: nat)
    requires n >= 2 && i < n && j < n
    ensures VertexBuffer(n, i * n + j + 1)
         == VertexBuffer(n, i * n + j) + [GridCoord(n, i as real), GridCoord(n, j as real), 0.0]
  {
    var m := i * n + j;
    CornerVertex(n, i, j);
    assert VertexBuffer(n, m + 1) == VertexBuffer(n, m) + VertexXyz(n, m);
  }

  lemma CenterStep(n: nat, i: nat, j: nat)
    requires n >= 2 && i < n - 1 && j < n - 1
    ensures VertexBuffer(n, n * n + i * (n - 1) + j + 1)
         == VertexBuffer(n, n * n + i * (n - 1) + j) + [CenterCoord(n, i as real), CenterCoord(n, j as real), 0.0]
  {
    var m := n * n + i * (n - 1) + j;
    CenterVertex(n, i, j);
    assert VertexBuffer(n, m + 1) == VertexBuffer(n, m) + VertexXyz(n, m);
  }

  /** Centre (i, j) is vertex n*n + i*(n-1) + j and lies strictly inside the square. */
  lemma CenterVertex(n: nat, i: nat, j: nat)
    requires n >= 2 && i < n - 1 && j < n - 1
    ensures n * n <= n * n + i * (n - 1) + j < NVert(n)
    ensures VertexXyz(n, n * n + i * (n - 1) + j)
         == [CenterCoord(n, i as real), CenterCoord(n, j as real), 0.0]
    ensures -1.0 < CenterCoord(n, i as real) < 1.0
  {
    FlatIndexBound(i, j, n - 1, n - 1);
    DivModOf(i, j, n - 1);
    GridCoordRange(n, i as real + 0.5);
  }

  // --------------------------------------------------------------- triangles

  function NCells(n: nat): nat { (n - 1) * (n - 1) }

  function CornerIdx(n: nat, i: nat, j: nat): nat { i * n + j }

  function CenterIdx(n: nat, i: nat, j: nat): nat
    requires n >= 1
  {
    n * n + i * (n - 1) + j
  }

  /** The corners of cell (i, j) in fan order, closing back on the first. */
  function Fan(n: nat, i: nat, j: nat): seq<nat>
  {
    [CornerIdx(n, i, j), CornerIdx(n, i, j + 1), CornerIdx(n, i + 1, j + 1),
     CornerIdx(n, i + 1, j), CornerIdx(n, i, j)]
  }

  /** The twelve indices of the four triangles of cell (i, j). */
  function CellIndices(n: nat, i: nat, j: nat): seq<nat>
    requires n >= 1
  {
    var c := CenterIdx(n, i, j);
    [c, CornerIdx(n, i, j), CornerIdx(n, i, j + 1),
     c, CornerIdx(n, i, j + 1), CornerIdx(n, i + 1, j + 1),
     c, CornerIdx(n, i + 1, j + 1), CornerIdx(n, i + 1, j),
     c, CornerIdx(n, i + 1, j), CornerIdx(n, i, j)]
  }

  /** The index array holding cells 0 .. m-1 in row-major order. */
  function TriangleBuffer(n: nat, m: nat): seq<nat>
    requires n >= 2
  {
    if m == 0 then [] else TriangleBuffer(n, m - 1) + Cell(n, m - 1)
  }

  /** The indices of the c-th cell in row-major order. */
  function Cell(n: nat, c: nat): (r: seq<nat>)
    requires n >= 2
    ensures |r| == 12
  {
    CellIndices(n, c / (n - 1), c % (n - 1))
  }

  /** Each triangle t of a cell is its centre and two consecutive fan corners,
      and every index names a vertex of the mesh. */
  lemma CellTriangles(n: nat, i: nat, j: nat)
    requires n >= 2 && i < n - 1 && j < n - 1
    ensures forall t :: 0 <= t < 4 ==>
      CellIndices(n, i, j)[3 * t .. 3 * t + 3]
        == [CenterIdx(n, i, j), Fan(n, i, j)[t], Fan(n, i, j)[t + 1]]
    ensures forall k :: 0 <= k < 12 ==> CellIndices(n, i, j)[k] < NVert(n)
  {
    FlatIndexBound(i, j, n - 1, n - 1);
    FlatIndexBound(i + 1, j + 1, n, n);
    assert CornerIdx(n, i, j) <= CornerIdx(n, i, j + 1) <= CornerIdx(n, i + 1, j + 1);
    assert CornerIdx(n, i + 1, j) <= CornerIdx(n, i + 1, j + 1);
    var cs := CellIndices(n, i, j);
    var f := Fan(n, i, j);
    assert cs[0..3] == [CenterIdx(n, i, j), f[0], f[1]];
    assert cs[3..6] == [CenterIdx(n, i, j), f[1], f[2]];
    assert cs[6..9] == [CenterIdx(n, i, j), f[2], f[3]];
    assert cs[9..12] == [CenterIdx(n, i, j), f[3], f[4]];
  }

  lemma {:induction false} TriangleBufferLength(n: nat, m: nat)
    requires n >= 2
    ensures |TriangleBuffer(n, m)| == 12 * m
  {
    if m > 0 {
      TriangleBufferLength(n, m - 1);
    }
  }

  /** Cell c occupies entries 12c .. 12c+11 of the index array. */
  lemma {:induction false} TriangleBufferCell(n: nat, m: nat, c: nat)
    requires n >= 2 && c < m
    ensures |TriangleBuffer(n, m)| == 12 * m
    ensures TriangleBuffer(n, m)[12 * c .. 12 * c + 12] == Cell(n, c)
  {
    TriangleBufferLength(n, m);
    TriangleBufferLength(n, m - 1);
    var prev := TriangleBuffer(n, m - 1);
    var cell := Cell(n, m - 1);
    assert TriangleBuffer(n, m) == prev + cell;
    if c < m - 1 {
      TriangleBufferCell(n, m - 1, c);
      assert (prev + cell)[12 * c .. 12 * c + 12] == prev[12 * c .. 12 * c + 12];
    } else {
      assert (prev + cell)[12 * c .. 12 * c + 12] == cell;
    }
  }

  lemma TriangleBufferStep(n: nat, i: nat, j: nat, m: nat)
    requires n >= 2 && j < n - 1 && m == i * (n - 1) + j
    ensures TriangleBuffer(n, m + 1) == TriangleBuffer(n, m) + CellIndices(n, i, j)
  {
    DivModOf(i, j, n - 1);
    assert Cell(n, m) == CellIndices(n, i, j);
  }

  /** Every entry of the index array names a vertex of the mesh. */
  lemma {:induction false} TriangleBufferInRange(n: nat, m: nat)
    requires n >= 2 && m <= NCells(n)
    ensures forall k :: 0 <= k < |TriangleBuffer(n, m)| ==> TriangleBuffer(n, m)[k] < NVert(n)
  {
    if m > 0 {
      TriangleBufferInRange(n, m - 1);
      var c := m - 1;
      RowBound(c, n - 1, n - 1);
      CellTriangles(n, c / (n - 1), c % (n - 1));
      var prev := TriangleBuffer(n, m - 1);
      var cell := Cell(n, c);
      assert TriangleBuffer(n, m) == prev + cell;
    }
  }

  /** The finished mesh: n^2 + (n-1)^2 vertices, 4(n-1)^2 triangles and
      3 * 4(n-1)^2 indices, all of which name vertices. */
  lemma MeshCounts(n: nat)
    requires n >= 2
    ensures |VertexBuffer(n, NVert(n))| == 3 * NVert(n)
    ensures |TriangleBuffer(n, NCells(n))| == NTriVert(n)
    ensures forall k :: 0 <= k < NTriVert(n) ==> TriangleBuffer(n, NCells(n))[k] < NVert(n)
  {
    VertexBufferLength(n, NVert(n));
    TriangleBufferLength(n, NCells(n));
    TriangleBufferInRange(n, NCells(n));
  }

  // ---------------------------------------------------------------- colormap

  const ColorX: seq<real> := [0.0, 0.2, 0.4, 0.6, 0.8, 1.0]
  const ColorR: seq<real> := [0.0, 0.0, 0.0, 128.0, 255.0, 255.0]
  const ColorG: seq<real> := [0.0, 128.0, 255.0, 255.0, 255.0, 128.0]
  const ColorB: seq<real> := [255.0, 255.0, 255.0, 128.0, 0.0, 0.0]
  const ColorA: seq<real> := [255.0, 255.0, 255.0, 255.0, 255.0, 255.0]
  const NControl: nat := 6

  /** The control abscissae are evenly spaced at 0.2. */
  lemma ColorXGrid()
    ensures forall i :: 0 <= i < NControl ==> ColorX[i] == 0.2 * (i as real)
  {
    forall i | 0 <= i < NControl
      ensures ColorX[i] == 0.2 * (i as real)
    {
      if i == 0 {} else if i == 1 {} else if i == 2 {} else if i == 3 {} else if i == 4 {} else {}
    }
  }

  /** The RGBA colour of control point k. */
  function Control(k: nat): seq<real>
    requires k < NControl
  {
    [ColorR[k], ColorG[k], ColorB[k], ColorA[k]]
  }

  /** Linear blend between control points i1-1 and i1 at x. */
  function Blend(i1: nat, x: real): seq<real>
    requires 1 <= i1 < NControl
  {
    var i0 := i1 - 1;
    var x0 := ColorX[i0];
    var x1 := ColorX[i1];
    var fx0 := (x1 - x) / (x1 - x0);
    var fx1 := (x - x0) / (x1 - x0);
    [fx0 * ColorR[i0] + fx1 * ColorR[i1],
     fx0 * ColorG[i0] + fx1 * ColorG[i1],
     fx0 * ColorB[i0] + fx1 * ColorB[i1],
     fx0 * ColorA[i0] + fx1 * ColorA[i1]]
  }

  lemma MixBounds(f0: real, f1: real, a: real, b: real)
    requires 0.0 <= f0 && 0.0 <= f1 && f0 + f1 == 1.0
    requires 0.0 <= a <= 255.0 && 0.0 <= b <= 255.0
    ensures 0.0 <= f0 * a + f1 * b <= 255.0
  {
    RealMulNonneg(f0, 255.0 - a);
    RealMulNonneg(f1, 255.0 - b);
    RealMulNonneg(f0, a);
    RealMulNonneg(f1, b);
    assert f0 * a + f1 * b == (f0 + f1) * 255.0 - f0 * (255.0 - a) - f1 * (255.0 - b);
  }

  /** Inside a bracket every channel stays within [0, 255]. */
  lemma BlendBounds(i1: nat, x: real)
    requires 1 <= i1 < NControl && ColorX[i1 - 1] <= x <= ColorX[i1]
    ensures |Blend(i1, x)| == 4
    ensures forall ch :: 0 <= ch < 4 ==> 0.0 <= Blend(i1, x)[ch] <= 255.0
  {
    ColorXGrid();
    var x0 := ColorX[i1 - 1];
    var x1 := ColorX[i1];
    assert x1 - x0 == 0.2;
    var fx0 := (x1 - x) / (x1 - x0);
    var fx1 := (x - x0) / (x1 - x0);
    assert fx0 + fx1 == 1.0;
    MixBounds(fx0, fx1, ColorR[i1 - 1], ColorR[i1]);
    MixBounds(fx0, fx1, ColorG[i1 - 1], ColorG[i1]);
    MixBounds(fx0, fx1, ColorB[i1 - 1], ColorB[i1]);
    MixBounds(fx0, fx1, ColorA[i1 - 1], ColorA[i1]);
  }

  /** The colormap lookup: the first colour at or below 0, the last at or
      above 1, and otherwise the blend over the bracketing control points
      x[i1-1] <= x < x[i1]; a control point's own x gives its colour. */
  method ColorAt(x: real) returns (c: seq<real>)
    ensures x <= 0.0 ==> c == Control(0)
    ensures x >= 1.0 ==> c == Control(NControl - 1)
    ensures 0.0 < x < 1.0 ==>
      exists i1 :: 1 <= i1 < NControl && ColorX[i1 - 1] <= x < ColorX[i1] && c == Blend(i1, x)
    ensures forall k :: 0 <= k < NControl && x == ColorX[k] ==> c == Control(k)
    ensures |c| == 4 && forall ch :: 0 <= ch < 4 ==> 0.0 <= c[ch] <= 255.0
  {
    if x <= 0.0 {
      c := Control(0);
    } else if x >= 1.0 {
      c := Control(NControl - 1);
    } else {
      var i1 := 1;
      while i1 < NControl && !(ColorX[i1] > x)
        invariant 1 <= i1 <= NControl
        invariant ColorX[i1 - 1] <= x
      {
        i1 := i1 + 1;
      }
      c := Blend(i1, x);
      BlendBounds(i1, x);
      ColorXGrid();
      forall k | 0 <= k < NControl && x == ColorX[k]
        ensures c == Control(k)
      {
        assert 0.2 * ((i1 - 1) as real) <= 0.2 * (k as real) < 0.2 * (i1 as real);
        assert k == i1 - 1;
        var x0 := ColorX[i1 - 1];
        var x1 := ColorX[i1];
        assert x1 - x0 == 0.2;
        assert (x1 - x) / (x1 - x0) == 1.0;
        assert (x - x0) / (x1 - x0) == 0.0;
      }
    }
  }

  // ------------------------------------------------------------- weighting

  /** A data sample [x, y, value]. */
  datatype Sample = Sample(x: real, y: real, value: real)

  /** Cauchy kernel with spread s: in (0, 1], and 1 exactly at zero offset. */
  function Weight(dx: real, dy: real, s: real): (w: real)
    requires s != 0.0
    ensures 0.0 < w <= 1.0
    ensures w == 1.0 <==> dx == 0.0 && dy == 0.0
  {
    var ddx := dx / s;
    var ddy := dy / s;
    assert ddx * ddx >= 0.0 && ddy * ddy >= 0.0;
    assert ddx == 0.0 <==> dx == 0.0;
    assert ddy == 0.0 <==> dy == 0.0;
    1.0 / (1.0 + ddx * ddx + ddy * ddy)
  }

  /** Sum of the kernel weights of the samples, accumulated in order. */
  function TotalWeight(px: real, py: real, dat: seq<Sample>, s: real): real
    requires s != 0.0
  {
    if |dat| == 0 then 0.0
    else
      var d := dat[|dat| - 1];
      TotalWeight(px, py, dat[..|dat| - 1], s) + Weight(px - d.x, py - d.y, s)
  }

  /** Sum of weight times value over the samples, accumulated in order. */
  function WeightedSum(px: real, py: real, dat: seq<Sample>, s: real): real
    requires s != 0.0
  {
    if |dat| == 0 then 0.0
    else
      var d := dat[|dat| - 1];
      WeightedSum(px, py, dat[..|dat| - 1], s) + Weight(px - d.x, py - d.y, s) * d.value
  }

  /** The colormap coordinate of a vertex at (px, py). */
  function VertexValue(px: real, py: real, dat: seq<Sample>): real
  {
    var tw := TotalWeight(px, py, dat, SpreadVal);
    var v := WeightedSum(px, py, dat, SpreadVal);
    if tw > 0.0 then v / tw else v
  }

  /** The opacity of a vertex at (px, py); `exp` is the host's exponential. */
  function VertexAlpha(px: real, py: real, dat: seq<Sample>, exp: real -> real): real
  {
    Opacity(TotalWeight(px, py, dat, SpreadAlpha), exp)
  }

  /** Opacity from a total alpha weight t: 1 - exp(-t*t). */
  function Opacity(t: real, exp: real -> real): real
  {
    1.0 - exp(-t * t)
  }

  lemma MulMono(w: real, a: real, b: real)
    requires w >= 0.0 && a <= b
    ensures a * w <= b * w
  {
    RealMulNonneg(w, b - a);
    assert w * (b - a) == b * w - a * w;
  }

  lemma {:induction false} WeightedSumBounds(px: real, py: real, dat: seq<Sample>, s: real, lo: real, hi: real)
    requires s != 0.0
    requires forall k :: 0 <= k < |dat| ==> lo <= dat[k].value <= hi
    ensures lo * TotalWeight(px, py, dat, s) <= WeightedSum(px, py, dat, s)
                                             <= hi * TotalWeight(px, py, dat, s)
    ensures |dat| > 0 ==> TotalWeight(px, py, dat, s) > 0.0
  {
    var ws := WeightsAsSeq(px, py, dat, s);
    DotBounds(ws, dat, lo, hi);
  }

  /** The weights of the samples, in order: TotalWeight is their sum and
      WeightedSum their dot product with the sample values. */
  lemma {:induction false} WeightsAsSeq(px: real, py: real, dat: seq<Sample>, s: real) returns (ws: seq<real>)
    requires s != 0.0
    ensures |ws| == |dat| && forall k :: 0 <= k < |ws| ==> ws[k] > 0.0
    ensures TotalWeight(px, py, dat, s) == SumOf(ws) && WeightedSum(px, py, dat, s) == DotOf(ws, dat)
  {
    if |dat| == 0 {
      ws := [];
    } else {
      var pre := dat[..|dat| - 1];
      var d := dat[|dat| - 1];
      var wsPre := WeightsAsSeq(px, py, pre, s);
      var w := Weight(px - d.x, py - d.y, s);
      ws := wsPre + [w];
      assert ws[..|ws| - 1] == wsPre;
      assert dat[..|dat| - 1] == pre;
    }
  }

  function SumOf(ws: seq<real>): real
  {
    if |ws| == 0 then 0.0 else SumOf(ws[..|ws| - 1]) + ws[|ws| - 1]
  }

  function DotOf(ws: seq<real>, dat: seq<Sample>): real
    requires |ws| == |dat|
  {
    if |ws| == 0 then 0.0 else DotOf(ws[..|ws| - 1], dat[..|dat| - 1]) + ws[|ws| - 1] * dat[|dat| - 1].value
  }

  /** A positive-weighted sum of values in [lo, hi] lies between lo and hi
      times the total weight. */
  lemma {:induction false} DotBounds(ws: seq<real>, dat: seq<Sample>, lo: real, hi: real)
    requires |ws| == |dat| && forall k :: 0 <= k < |ws| ==> ws[k] > 0.0
    requires forall k :: 0 <= k < |dat| ==> lo <= dat[k].value <= hi
    ensures lo * SumOf(ws) <= DotOf(ws, dat) <= hi * SumOf(ws)
    ensures |ws| > 0 ==> SumOf(ws) > 0.0
    ensures SumOf(ws) >= 0.0
  {
    if |ws| > 0 {
      var n := |ws| - 1;
      var wsPre, pre := ws[..n], dat[..n];
      DotBounds(wsPre, pre, lo, hi);
      AccumulateBounds(lo, hi, SumOf(wsPre), DotOf(wsPre, pre), ws[n], dat[n].value, SumOf(ws), DotOf(ws, dat));
    }
  }

  /** One accumulation step keeps lo*tw <= ws <= hi*tw. */
  lemma AccumulateBounds(lo: real, hi: real, tw: real, ws: real, w: real, v: real, tw': real, ws': real)
    requires lo * tw <= ws <= hi * tw && tw >= 0.0 && w > 0.0 && lo <= v <= hi
    requires tw' == tw + w && ws' == ws + w * v
    ensures lo * tw' <= ws' <= hi * tw' && tw' > 0.0
  {
    MulMono(w, lo, v);
    MulMono(w, v, hi);
  }

  /** With no samples a vertex gets value 0; otherwise its value is a
      weighted mean, so it lies between the smallest and largest sample
      value, and a single sample's value is reproduced everywhere. */
  lemma VertexValueBounds(px: real, py: real, dat: seq<Sample>, lo: real, hi: real)
    requires forall k :: 0 <= k < |dat| ==> lo <= dat[k].value <= hi
    ensures |dat| == 0 ==> VertexValue(px, py, dat) == 0.0
    ensures |dat| > 0 ==> lo <= VertexValue(px, py, dat) <= hi
  {
    WeightedSumBounds(px, py, dat, SpreadVal, lo, hi);
    if |dat| > 0 {
      var tw := TotalWeight(px, py, dat, SpreadVal);
      var v := WeightedSum(px, py, dat, SpreadVal);
      assert v / tw * tw == v;
    }
  }

  lemma SingleSampleValue(px: real, py: real, d: Sample)
    ensures VertexValue(px, py, [d]) == d.value
  {
    VertexValueBounds(px, py, [d], d.value, d.value);
  }

  /** With no samples every vertex has opacity 1 - exp(0). */
  lemma NoSampleAlpha(px: real, py: real, exp: real -> real)
    ensures VertexAlpha(px, py, [], exp) == 1.0 - exp(0.0)
    ensures VertexValue(px, py, []) == 0.0
  {
    assert -TotalWeight(px, py, [], SpreadAlpha) * TotalWeight(px, py, [], SpreadAlpha) == 0.0;
  }

  // ------------------------------------------------------- buffer builders

  /** The vertex loops of `initVertices`: corners row by row, then centres
      row by row, three coordinates per vertex. */
  method BuildVertices() returns (vertices: seq<real>)
    ensures vertices == VertexBuffer(N, NVert(N))
    ensures |vertices| == 3 * NVert(N)
  {
    vertices := [];
    var i := 0;
    while i < N
      invariant 0 <= i <= N
      invariant vertices == VertexBuffer(N, i * N)
    {
      vertices := CornerRow(i, i * N, vertices);
      assert i * N + N == (i + 1) * N;
      i := i + 1;
    }
    assert N * N + 0 * (N - 1) == N * N;
    i := 0;
    while i < N - 1
      invariant 0 <= i <= N - 1
      invariant vertices == VertexBuffer(N, N * N + i * (N - 1))
    {
      vertices := CenterRow(i, N * N + i * (N - 1), vertices);
      assert i * (N - 1) + (N - 1) == (i + 1) * (N - 1);
      i := i + 1;
    }
    assert N * N + (N - 1) * (N - 1) == NVert(N);
    VertexBufferLength(N, NVert(N));
  }

  /** The inner corner loop: row i of the grid, starting at vertex base. */
  method CornerRow(i: nat, base: nat, vertices: seq<real>) returns (vertices': seq<real>)
    requires i < N && base == i * N && vertices == VertexBuffer(N, base)
    ensures vertices' == VertexBuffer(N, base + N)
  {
    vertices' := vertices;
    var x := GridCoord(N, i as real);
    var j := 0;
    while j < N
      invariant 0 <= j <= N
      invariant vertices' == VertexBuffer(N, base + j)
    {
      var y := GridCoord(N, j as real);
      CornerStep(N, i, j);
      vertices' := vertices' + [x, y, 0.0];
      j := j + 1;
    }
  }

  /** The inner centre loop: row i of the cell centres, starting at
      vertex base. */
  method CenterRow(i: nat, base: nat, vertices: seq<real>) returns (vertices': seq<real>)
    requires i < N - 1 && base == N * N + i * (N - 1) && vertices == VertexBuffer(N, base)
    ensures vertices' == VertexBuffer(N, base + (N - 1))
  {
    vertices' := vertices;
    var x := CenterCoord(N, i as real);
    var j := 0;
    while j < N - 1
      invariant 0 <= j <= N - 1
      invariant vertices' == VertexBuffer(N, base + j)
    {
      var y := CenterCoord(N, j as real);
      CenterStep(N, i, j);
      vertices' := vertices' + [x, y, 0.0];
      j := j + 1;
    }
  }

  /** The cell loops of `initTriangles`: four triangles per cell, cells in
      row-major order. */
  method BuildTriangles() returns (triVertices: seq<nat>)
    ensures triVertices == TriangleBuffer(N, NCells(N))
    ensures |triVertices| == NTriVert(N)
    ensures forall k :: 0 <= k < |triVertices| ==> triVertices[k] < NVert(N)
  {
    triVertices := [];
    var i := 0;
    while i < N - 1
      invariant 0 <= i <= N - 1
      invariant triVertices == TriangleBuffer(N, i * (N - 1))
    {
      triVertices := CellRow(N, i, i * (N - 1), triVertices);
      assert i * (N - 1) + (N - 1) == (i + 1) * (N - 1);
      i := i + 1;
    }
    MeshCounts(N);
  }

  /** The inner cell loop: row i of cells, starting at cell base. */
  method CellRow(n: nat, i: nat, base: nat, triVertices: seq<nat>) returns (triVertices': seq<nat>)
    requires n >= 2 && i < n - 1 && base == i * (n - 1) && triVertices == TriangleBuffer(n, base)
    ensures triVertices' == TriangleBuffer(n, base + (n - 1))
  {
    triVertices' := triVertices;
    var j := 0;
    while j < n - 1
      invariant 0 <= j <= n - 1
      invariant triVertices' == TriangleBuffer(n, base + j)
    {
      TriangleBufferStep(n, i, j, base + j);
      triVertices' := triVertices' + CellIndices(n, i, j);
      j := j + 1;
    }
  }

  // --------------------------------------------------------- module state

  /** The module-level state of the overlay: view rectangle, mesh buffers and
      per-vertex colormap coordinate and opacity. */
  class HeatmapLayer {
    var xMin: real
    var yMin: real
    var xMax: real
    var yMax: real
    var vertices: seq<real>
    var triVertices: seq<nat>
    var data: seq<Sample>
    var texCoord: seq<real>
    var alpha: seq<real>

    constructor ()
      ensures xMin == -1.0 && xMax == 1.0 && yMin == -1.0 && yMax == 1.0
      ensures vertices == [] && triVertices == [] && data == []
      ensures texCoord == [] && alpha == []
    {
      xMin, xMax, yMin, yMax := -1.0, 1.0, -1.0, 1.0;
      vertices, triVertices, data := [], [], [];
      texCoord, alpha := [], [];
    }

    method SetViewRect(xMin': real, yMin': real, xMax': real, yMax': real)
      modifies this
      ensures xMin == xMin' && yMin == yMin' && xMax == xMax' && yMax == yMax'
      ensures vertices == old(vertices) && triVertices == old(triVertices)
      ensures data == old(data) && texCoord == old(texCoord) && alpha == old(alpha)
    {
      xMin, yMin, xMax, yMax := xMin', yMin', xMax', yMax';
    }

    /** The view becomes the canvas rectangle [0, width] x [0, height]. */
    method SetViewRectToCanvas(width: real, height: real)
      modifies this
      ensures xMin == 0.0 && yMin == 0.0 && xMax == width && yMax == height
      ensures vertices == old(vertices) && triVertices == old(triVertices)
      ensures data == old(data) && texCoord == old(texCoord) && alpha == old(alpha)
    {
      SetViewRect(0.0, 0.0, width, height);
    }

    /** `initVertices`: fills the vertex array of the mesh. */
    method InitVertices()
      modifies this
      ensures vertices == VertexBuffer(N, NVert(N))
      ensures xMin == old(xMin) && yMin == old(yMin) && xMax == old(xMax) && yMax == old(yMax)
      ensures triVertices == old(triVertices) && data == old(data)
      ensures texCoord == old(texCoord) && alpha == old(alpha)
    {
      vertices := BuildVertices();
    }

    /** `initTriangles`: fills the index array of the mesh. */
    method InitTriangles()
      modifies this
      ensures triVertices == TriangleBuffer(N, NCells(N))
      ensures xMin == old(xMin) && yMin == old(yMin) && xMax == old(xMax) && yMax == old(yMax)
      ensures vertices == old(vertices) && data == old(data)
      ensures texCoord == old(texCoord) && alpha == old(alpha)
    {
      triVertices := BuildTriangles();
    }

    /** The (x, y) part of vertex i. */
    function VertexXy(i: nat): seq<real>
      reads this
      requires 3 * i + 2 <= |vertices|
    {
      vertices[3 * i .. 3 * i + 2]
    }

    /** Recomputes every vertex's colormap coordinate and opacity from the
        samples. */
    method SetData(dat: seq<Sample>, exp: real -> real)
      modifies this
      requires |vertices| == 3 * NVert(N)
      ensures vertices == old(vertices) && triVertices == old(triVertices)
      ensures xMin == old(xMin) && yMin == old(yMin) && xMax == old(xMax) && yMax == old(yMax)
      ensures data == dat
      ensures |texCoord| == NVert(N) && |alpha| == NVert(N)
      ensures forall i :: 0 <= i < NVert(N) ==>
        texCoord[i] == VertexValue(VertexXy(i)[0], VertexXy(i)[1], dat)
        && alpha[i] == VertexAlpha(VertexXy(i)[0], VertexXy(i)[1], dat, exp)
    {
      data := dat;
      var tex: seq<real> := [];
      var alp: seq<real> := [];
      var i := 0;
      while i < NVert(N)
        invariant 0 <= i <= NVert(N)
        invariant vertices == old(vertices) && triVertices == old(triVertices)
        invariant xMin == old(xMin) && yMin == old(yMin) && xMax == old(xMax) && yMax == old(yMax)
        invariant data == dat
        invariant |tex| == i && |alp| == i
        invariant forall i' :: 0 <= i' < i ==>
          tex[i'] == VertexValue(VertexXy(i')[0], VertexXy(i')[1], dat)
          && alp[i'] == VertexAlpha(VertexXy(i')[0], VertexXy(i')[1], dat, exp)
      {
        var xy := VertexXy(i);
        var val, alphaVal := ShadeVertex(xy[0], xy[1], dat, exp);
        tex := tex + [val];
        alp := alp + [alphaVal];
        i := i + 1;
      }
      texCoord := tex;
      alpha := alp;
    }
  }

  /** The per-vertex pass of `setData`: accumulates the weights sample by
      sample, then normalises the value and turns the alpha weight into an
      opacity. */
  method ShadeVertex(px: real, py: real, dat: seq<Sample>, exp: real -> real)
    returns (val: real, alphaVal: real)
    ensures val == VertexValue(px, py, dat)
    ensures alphaVal == VertexAlpha(px, py, dat, exp)
  {
    var totWeightVal := 0.0;
    var totWeightAlpha := 0.0;
    val := 0.0;
    var k := 0;
    while k < |dat|
      invariant 0 <= k <= |dat|
      invariant totWeightVal == TotalWeight(px, py, dat[..k], SpreadVal)
      invariant val == WeightedSum(px, py, dat[..k], SpreadVal)
      invariant totWeightAlpha == TotalWeight(px, py, dat[..k], SpreadAlpha)
    {
      var d := dat[k];
      assert dat[..k + 1][..k] == dat[..k];
      var wVal := Weight(px - d.x, py - d.y, SpreadVal);
      totWeightVal := totWeightVal + wVal;
      val := val + wVal * d.value;
      totWeightAlpha := totWeightAlpha + Weight(px - d.x, py - d.y, SpreadAlpha);
      k := k + 1;
    }
    assert dat[..|dat|] == dat;
    if totWeightVal > 0.0 {
      val := val / totWeightVal;
    }
    alphaVal := Opacity(totWeightAlpha, exp);
  }
}
