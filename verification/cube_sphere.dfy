/** Cube-to-sphere tessellation (`Application::generateCubeFace`, `Application::sphereFromCube`):
    six independent (s+1) x (s+1) face grids, each with two triangles per cell, wound
    differently from the lat/long sphere. */
module CubeSphere {
  import opened Loops
  import opened Mesh

  /** The faces in the order of the face-matrix table; mesh i is built from matrix i. */
  const FaceOrder: seq<Face> := [PosZ, NegZ, NegY, PosY, NegX, PosX]

  /** The vertex loops push one vertex per (y, x) pair, y outer and x inner. */
  function VertexBody(f: Face): (nat, nat) -> seq<Vertex>
  {
    (y: nat, x: nat) => [CubeVertex(f, x, y)]
  }

  /** The six indices the index loops push for the cell (x, y). */
  function CellIndices(s: int, y: nat, x: nat): seq<int>
  {
    var k1 := x + y * (s + 1);
    var k2 := x + (y + 1) * (s + 1);
    [k1, k2, k2 + 1, k2 + 1, k1, k1 + 1]
  }

  function Cell(s: int): (nat, nat) -> seq<int>
  {
    (y: nat, x: nat) => CellIndices(s, y, x)
  }

  /** Vertex loops: `y < subdiv + 1`, then `x < subdiv + 1`. */
  function FaceVertices(f: Face, s: int): seq<Vertex>
  {
    Nested(Count(s + 1), Count(s + 1), VertexBody(f))
  }

  /** Index loops: `y < subdiv`, then `x < subdiv`; the same for every face. */
  function FaceIndices(s: int): seq<int>
  {
    Nested(Count(s), Count(s), Cell(s))
  }

  /** The mesh `generateCubeFace` fills for face f. */
  function CubeFace(f: Face, s: int): Mesh
  {
    Mesh(FaceVertices(f, s), FaceIndices(s))
  }

  /** The mesh list `sphereFromCube` leaves behind: one face mesh per table entry, in order. */
  function SphereFromCube(s: int): seq<Mesh>
  {
    seq(6, i requires 0 <= i < 6 => CubeFace(FaceOrder[i], s))
  }

  /** There are (s+1)^2 vertices per face, and vertex p is the one computed for
      x = p % (s+1), y = p / (s+1): every grid point of the face exactly once, y-major. */
  lemma FaceVertexGrid(f: Face, s: int)
    ensures |FaceVertices(f, s)| == Count(s + 1) * Count(s + 1)
    ensures s >= 0 ==> |FaceVertices(f, s)| == (s + 1) * (s + 1)
    ensures forall p :: 0 <= p < |FaceVertices(f, s)| ==>
              FaceVertices(f, s)[p] == CubeVertex(f, p % (s + 1), p / (s + 1))
  {
    FaceVertexCount(f, s);
    forall p | 0 <= p < |FaceVertices(f, s)|
      ensures FaceVertices(f, s)[p] == CubeVertex(f, p % (s + 1), p / (s + 1))
    {
      FaceVertexAtPosition(f, s, p);
    }
  }

  lemma FaceVertexCount(f: Face, s: int)
    ensures |FaceVertices(f, s)| == Count(s + 1) * Count(s + 1)
    ensures s >= 0 ==> |FaceVertices(f, s)| == (s + 1) * (s + 1)
  {
    var n := Count(s + 1);
    NestedLength(n, n, VertexBody(f), 1);
    assert n * n * 1 == n * n;
  }

  /** Position p of a face's vertex list splits into the loop counters that produced it. */
  lemma FaceVertexAtPosition(f: Face, s: int, p: int)
    requires 0 <= p < |FaceVertices(f, s)|
    ensures FaceVertices(f, s)[p] == CubeVertex(f, p % (s + 1), p / (s + 1))
  {
    var n := Count(s + 1);
    FaceVertexCount(f, s);
    assert n > 0 && n == s + 1;
    GridPosition(p, n);
    var y, x := p / n, p % n;
    FaceVertexAt(f, s, x, y);
  }

  lemma FaceVertexAt(f: Face, s: int, x: nat, y: nat)
    requires x <= s && y <= s
    ensures x + y * (s + 1) < |FaceVertices(f, s)|
    ensures FaceVertices(f, s)[x + y * (s + 1)] == CubeVertex(f, x, y)
  {
    NestedAt(s + 1, s + 1, VertexBody(f), 1, y, x, 0);
    assert (y * (s + 1) + x) * 1 + 0 == x + y * (s + 1);
  }

  /** Six indices per cell, so 6 * s^2 per face: whole triangles. */
  lemma FaceIndexCount(s: int)
    ensures |FaceIndices(s)| == 6 * Count(s) * Count(s)
    ensures |FaceIndices(s)| % 3 == 0
  {
    var c := Count(s);
    NestedLength(c, c, Cell(s), 6);
    SixSquares(c);
  }

  /** Cell (x, y) is the (y * s + x)-th cell emitted, and its six indices are the
      triangles [k1, k2, k2+1] then [k2+1, k1, k1+1]. */
  lemma FaceCellWinding(s: int, x: nat, y: nat)
    requires x < s && y < s
    ensures 6 * (y * s + x) + 6 <= |FaceIndices(s)|
    ensures var k1 := x + y * (s + 1);
            var k2 := x + (y + 1) * (s + 1);
            FaceIndices(s)[6 * (y * s + x) .. 6 * (y * s + x) + 6] == [k1, k2, k2 + 1, k2 + 1, k1, k1 + 1]
  {
    assert 6 * (y * s + x) == (y * s + x) * 6;
    NestedSlice(s, s, Cell(s), 6, y, x);
  }

  /** Every index names a vertex of the face grid. */
  lemma FaceIndicesInRange(f: Face, s: int)
    ensures forall i :: 0 <= i < |FaceIndices(s)| ==> 0 <= FaceIndices(s)[i] < |FaceVertices(f, s)|
  {
    FaceVertexGrid(f, s);
    var n := Count(s);
    var InGrid := (v: int) => 0 <= v < (s + 1) * (s + 1);
    forall y: nat, x: nat, v | y < n && x < n && v in Cell(s)(y, x)
      ensures InGrid(v)
    {
      CellCornersInGrid(s, y, x);
      assert x + (y + 1) * (s + 1) == y * (s + 1) + x + s + 1;
    }
    NestedAll(n, n, Cell(s), InGrid);
    assert forall i :: 0 <= i < |FaceIndices(s)| ==> FaceIndices(s)[i] in FaceIndices(s);
  }

  /** The corners of cell (x, y) are the grid neighbours (x, y), (x+1, y), (x, y+1),
      (x+1, y+1) of the same face. */
  lemma FaceCellCorners(f: Face, s: int, x: nat, y: nat)
    requires x < s && y < s
    ensures var k1 := x + y * (s + 1);
            var k2 := x + (y + 1) * (s + 1);
            && k2 + 1 < |FaceVertices(f, s)|
            && FaceVertices(f, s)[k1] == CubeVertex(f, x, y)
            && FaceVertices(f, s)[k1 + 1] == CubeVertex(f, x + 1, y)
            && FaceVertices(f, s)[k2] == CubeVertex(f, x, y + 1)
            && FaceVertices(f, s)[k2 + 1] == CubeVertex(f, x + 1, y + 1)
  {
    FaceVertexAt(f, s, x, y);
    FaceVertexAt(f, s, x + 1, y);
    FaceVertexAt(f, s, x, y + 1);
    FaceVertexAt(f, s, x + 1, y + 1);
  }

  /** Each face mesh is a valid indexed triangle list. */
  lemma CubeFaceWellFormed(f: Face, s: int)
    ensures WellFormed(CubeFace(f, s))
  {
    FaceIndexCount(s);
    FaceIndicesInRange(f, s);
  }

  /** Six meshes, mesh i built from face-matrix i and holding only that face's vertices,
      each well formed, with (s+1)^2 vertices and 6 s^2 indices per face. */
  lemma SphereFromCubeShape(s: int)
    ensures |SphereFromCube(s)| == 6
    ensures forall i :: 0 <= i < 6 ==> WellFormed(SphereFromCube(s)[i])
    ensures forall i, v :: 0 <= i < 6 && v in SphereFromCube(s)[i].vertices ==>
              v.CubeVertex? && v.face == FaceOrder[i]
    ensures forall i :: 0 <= i < 6 ==>
              && |SphereFromCube(s)[i].vertices| == Count(s + 1) * Count(s + 1)
              && |SphereFromCube(s)[i].indices| == 6 * Count(s) * Count(s)
  {
    FaceIndexCount(s);
    forall i | 0 <= i < 6
      ensures WellFormed(SphereFromCube(s)[i])
      ensures |SphereFromCube(s)[i].vertices| == Count(s + 1) * Count(s + 1)
      ensures forall v :: v in SphereFromCube(s)[i].vertices ==> v.CubeVertex? && v.face == FaceOrder[i]
    {
      var f := FaceOrder[i];
      CubeFaceWellFormed(f, s);
      FaceVertexGrid(f, s);
      var n := Count(s + 1);
      var OnFace := (v: Vertex) => v.CubeVertex? && v.face == f;
      NestedAll(n, n, VertexBody(f), OnFace);
    }
  }
}
