// The WebGL grid demo: an N-by-N grid of vertices, two triangles per cell.

module WebglDemo {
  import opened Shared

  const N: nat := 16
  const NTri: nat := 2 * (N - 1) * (N - 1)
  const NInd: nat := 3 * NTri

  /** Grid coordinate of row or column i, spanning [-1, 1]. */
  function Coord(i: nat): real
  {
    2.0 * (i as real) / ((N - 1) as real) - 1.0
  }

  function Idx(i: nat, j: nat): nat { i * N + j }

  /** Position of vertex v = Idx(i, j). */
  function VertexXyz(v: nat): seq<real>
  {
    [Coord(v / N), Coord(v % N), 0.0]
  }

  /** Colour of vertex v: red and green follow the position, blue is the
      random draw r, alpha is 1. */
  function VertexColor(v: nat, r: real): seq<real>
  {
    GridColor(v / N, v % N, r)
  }

  function GridColor(i: nat, j: nat, r: real): seq<real>
  {
    [0.5 * (Coord(i) + 1.0), 0.5 * (Coord(j) + 1.0), r, 1.0]
  }

  function VertexBuffer(m: nat): seq<real>
  {
    if m == 0 then [] else VertexBuffer(m - 1) + VertexXyz(m - 1)
  }

  function ColorBuffer(m: nat, rand: seq<real>): seq<real>
    requires m <= |rand|
  {
    if m == 0 then [] else ColorBuffer(m - 1, rand) + VertexColor(m - 1, rand[m - 1])
  }

  /** The six indices (two triangles) of cell (i, j). */
  function QuadIndices(i: nat, j: nat): seq<nat>
  {
    [Idx(i, j), Idx(i + 1, j), Idx(i + 1, j + 1), Idx(i, j), Idx(i, j + 1), Idx(i + 1, j + 1)]
  }

  /** Cell c in row-major order. */
  function Quad(c: nat): (r: seq<nat>)
    ensures |r| == 6
  {
    QuadIndices(c / (N - 1), c % (N - 1))
  }

  function IndexBuffer(m: nat): seq<nat>
  {
    if m == 0 then [] else IndexBuffer(m - 1) + Quad(m - 1)
  }

  lemma {:induction false} VertexBufferLength(m: nat)
    ensures |VertexBuffer(m)| == 3 * m
  {
    if m > 0 {
      VertexBufferLength(m - 1);
    }
  }

  /** Vertex v occupies entries 3v .. 3v+2 of the vertex array. */
  lemma {:induction false} VertexBufferAt(m: nat, v: nat)
    requires v < m
    ensures |VertexBuffer(m)| == 3 * m
    ensures VertexBuffer(m)[3 * v .. 3 * v + 3] == VertexXyz(v)
  {
    VertexBufferLength(m - 1);
    if v < m - 1 {
      VertexBufferAt(m - 1, v);
    }
  }

  /** Vertex Idx(i, j) sits at (Coord(i), Coord(j), 0), inside [-1, 1]^2,
      with the grid reaching both -1 and 1. */
  lemma VertexPlacement(i: nat, j: nat)
    requires i < N && j < N
    ensures Idx(i, j) < N * N
    ensures VertexXyz(Idx(i, j)) == [Coord(i), Coord(j), 0.0]
    ensures -1.0 <= Coord(i) <= 1.0
    ensures Coord(0) == -1.0 && Coord(N - 1) == 1.0
  {
    FlatIndexBound(i, j, N, N);
    DivModOf(i, j, N);
  }

  lemma {:induction false} IndexBufferLength(m: nat)
    ensures |IndexBuffer(m)| == 6 * m
  {
    if m > 0 {
      IndexBufferLength(m - 1);
    }
  }

  /** Cell c occupies entries 6c .. 6c+5 of the index array. */
  lemma {:induction false} IndexBufferAt(m: nat, c: nat)
    requires c < m
    ensures |IndexBuffer(m)| == 6 * m
    ensures IndexBuffer(m)[6 * c .. 6 * c + 6] == Quad(c)
  {
    IndexBufferLength(m - 1);
    var prev := IndexBuffer(m - 1);
    var q := Quad(m - 1);
    assert IndexBuffer(m) == prev + q;
    if c < m - 1 {
      IndexBufferAt(m - 1, c);
      assert (prev + q)[6 * c .. 6 * c + 6] == prev[6 * c .. 6 * c + 6];
    } else {
      assert (prev + q)[6 * c .. 6 * c + 6] == q;
    }
  }

  /** Cell (i, j), the c-th with c = i(N-1)+j, contributes exactly the
      triangles (i,j),(i+1,j),(i+1,j+1) and (i,j),(i,j+1),(i+1,j+1). */
  lemma CellQuad(i: nat, j: nat)
    requires i < N - 1 && j < N - 1
    ensures i * (N - 1) + j < (N - 1) * (N - 1)
    ensures Quad(i * (N - 1) + j)[..3] == [Idx(i, j), Idx(i + 1, j), Idx(i + 1, j + 1)]
    ensures Quad(i * (N - 1) + j)[3..] == [Idx(i, j), Idx(i, j + 1), Idx(i + 1, j + 1)]
  {
    FlatIndexBound(i, j, N - 1, N - 1);
    DivModOf(i, j, N - 1);
  }

  /** Every index names one of the N*N vertices, so it also fits the
      16-bit index buffer. */
  lemma {:induction false} IndexBufferInRange(m: nat)
    requires m <= (N - 1) * (N - 1)
    ensures forall k :: 0 <= k < |IndexBuffer(m)| ==> IndexBuffer(m)[k] < N * N < 0x1_0000
  {
    if m > 0 {
      IndexBufferInRange(m - 1);
      var c := m - 1;
      RowBound(c, N - 1, N - 1);
      FlatIndexBound(c / (N - 1) + 1, c % (N - 1) + 1, N, N);
      assert IndexBuffer(m) == IndexBuffer(m - 1) + Quad(c);
    }
  }

  /** Cell m = i(N-1)+j appends the quad of (i, j). */
  lemma QuadStep(i: nat, j: nat, m: nat)
    requires j < N - 1 && m == i * (N - 1) + j
    ensures IndexBuffer(m + 1) == IndexBuffer(m) + QuadIndices(i, j)
  {
    DivModOf(i, j, N - 1);
    assert Quad(m) == QuadIndices(i, j);
  }

  /** Vertex m = iN+j appends the position of (i, j). */
  lemma VertexStep(i: nat, j: nat, m: nat)
    requires j < N && m == i * N + j
    ensures VertexBuffer(m + 1) == VertexBuffer(m) + [Coord(i), Coord(j), 0.0]
  {
    DivModOf(i, j, N);
    assert VertexBuffer(m + 1) == VertexBuffer(m) + VertexXyz(m);
  }

  /** Vertex m = iN+j appends the colour of (i, j) with blue rand[m]. */
  lemma ColorStep(i: nat, j: nat, m: nat, rand: seq<real>)
    requires j < N && m == i * N + j && m < |rand|
    ensures ColorBuffer(m + 1, rand) == ColorBuffer(m, rand) + GridColor(i, j, rand[m])
  {
    DivModOf(i, j, N);
    assert ColorBuffer(m + 1, rand) == ColorBuffer(m, rand) + VertexColor(m, rand[m]);
  }

  /** `initBuffers`: the vertex, colour and index arrays of the grid; `rand`
      supplies the random blue channel of each vertex in order. */
  method InitBuffers(rand: seq<real>)
    returns (vertices: seq<real>, verticesColor: seq<real>, vertexIndices: seq<nat>)
    requires |rand| == N * N
    ensures vertices == VertexBuffer(N * N) && |vertices| == 3 * N * N
    ensures verticesColor == ColorBuffer(N * N, rand)
    ensures vertexIndices == IndexBuffer((N - 1) * (N - 1)) && |vertexIndices| == NInd
    ensures forall k :: 0 <= k < |vertexIndices| ==> vertexIndices[k] < N * N
  {
    vertices, verticesColor := GridVertices(rand);
    vertexIndices := GridIndices();
  }

  /** The vertex loop of `initBuffers`. */
  method GridVertices(rand: seq<real>) returns (vertices: seq<real>, verticesColor: seq<real>)
    requires |rand| == N * N
    ensures vertices == VertexBuffer(N * N) && |vertices| == 3 * N * N
    ensures verticesColor == ColorBuffer(N * N, rand)
  {
    vertices := [];
    verticesColor := [];
    var i := 0;
    while i < N
      invariant 0 <= i <= N
      invariant vertices == VertexBuffer(i * N)
      invariant verticesColor == ColorBuffer(i * N, rand)
    {
      vertices, verticesColor := VertexRow(rand, i, vertices, verticesColor);
      i := i + 1;
    }
    VertexBufferLength(N * N);
  }

  /** The inner vertex loop: the N vertices of row i. */
  method VertexRow(rand: seq<real>, i: nat, vertices0: seq<real>, colors0: seq<real>)
      returns (vertices: seq<real>, verticesColor: seq<real>)
    requires |rand| == N * N && i < N
    requires vertices0 == VertexBuffer(i * N) && colors0 == ColorBuffer(i * N, rand)
    ensures vertices == VertexBuffer((i + 1) * N) && verticesColor == ColorBuffer((i + 1) * N, rand)
  {
    vertices, verticesColor := vertices0, colors0;
    var base := i * N;
    var j := 0;
    ghost var m := base;
    while j < N
      invariant 0 <= j <= N && m == base + j
      invariant vertices == VertexBuffer(m)
      invariant verticesColor == ColorBuffer(m, rand)
    {
      vertices, verticesColor := VertexAt(rand, i, j, base, m, vertices, verticesColor);
      j := j + 1;
      m := m + 1;
    }
    assert m == (i + 1) * N;
  }

  /** One pass of the inner vertex loop: vertex (i, j), at position
      base + j = iN + j. */
  method VertexAt(rand: seq<real>, i: nat, j: nat, base: nat, ghost m: nat, vertices0: seq<real>, colors0: seq<real>)
      returns (vertices: seq<real>, verticesColor: seq<real>)
    requires |rand| == N * N && i < N && j < N && base == i * N && m == base + j
    requires vertices0 == VertexBuffer(m) && colors0 == ColorBuffer(m, rand)
    ensures vertices == VertexBuffer(m + 1) && verticesColor == ColorBuffer(m + 1, rand)
  {
    var x := Coord(i);
    var y := Coord(j);
    FlatIndexBound(i, j, N, N);
    VertexStep(i, j, m);
    ColorStep(i, j, m, rand);
    vertices := vertices0 + [x, y, 0.0];
    verticesColor := colors0 + [0.5 * (x + 1.0), 0.5 * (y + 1.0), rand[base + j], 1.0];
  }

  /** The index loop of `initBuffers`. */
  method GridIndices() returns (vertexIndices: seq<nat>)
    ensures vertexIndices == IndexBuffer((N - 1) * (N - 1)) && |vertexIndices| == NInd
    ensures forall k :: 0 <= k < |vertexIndices| ==> vertexIndices[k] < N * N
  {
    vertexIndices := [];
    var i := 0;
    while i < N - 1
      invariant 0 <= i <= N - 1
      invariant vertexIndices == IndexBuffer(i * (N - 1))
    {
      vertexIndices := IndexRow(i, vertexIndices);
      i := i + 1;
    }
    IndexBufferLength((N - 1) * (N - 1));
    IndexBufferInRange((N - 1) * (N - 1));
  }

  /** The inner index loop: the two triangles of each quad of row i. */
  method IndexRow(i: nat, indices0: seq<nat>) returns (vertexIndices: seq<nat>)
    requires i < N - 1 && indices0 == IndexBuffer(i * (N - 1))
    ensures vertexIndices == IndexBuffer((i + 1) * (N - 1))
  {
    vertexIndices := indices0;
    ghost var base := i * (N - 1);
    var j := 0;
    while j < N - 1
      invariant 0 <= j <= N - 1
      invariant vertexIndices == IndexBuffer(base + j)
    {
      QuadStep(i, j, base + j);
      vertexIndices := vertexIndices + QuadIndices(i, j);
      j := j + 1;
    }
    assert base + (N - 1) == (i + 1) * (N - 1);
  }
}
