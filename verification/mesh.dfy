/** The mesh as the generators build it: an ordered vertex list and an ordered index list
    read three at a time as triangles. */
module Mesh {

  /** The six cube faces, in the order of the face-matrix table of `sphereFromCube`. */
  datatype Face = PosZ | NegZ | NegY | PosY | NegX | PosX

  /** A vertex, identified by the loop counters its floating-point position and normal are
      computed from; the trigonometry and normalisation themselves are not modelled. */
  datatype Vertex =
    | LatLongVertex(lon: nat, lat: nat)
    | CubeVertex(face: Face, x: nat, y: nat)

  datatype Mesh = Mesh(vertices: seq<Vertex>, indices: seq<int>)

  /** Whole triangles only, and every index names an existing vertex. */
  ghost predicate WellFormed(m: Mesh)
  {
    && |m.indices| % 3 == 0
    && forall i :: 0 <= i < |m.indices| ==> 0 <= m.indices[i] < |m.vertices|
  }

  /** Six indices for each of c * c cells make a whole number of triangles. */
  lemma SixSquares(c: nat)
    ensures c * c * 6 == 6 * c * c
    ensures (6 * c * c) % 3 == 0
  {
    var m := c * c;
    assert 6 * c * c == 6 * m;
    assert 6 * m == 3 * (2 * m);
  }

  /** The corners k1 = row*(n+1) + col, k1 + 1, k2 = k1 + n + 1 and k2 + 1 of a grid cell
      with row, col < n all lie in [0, (n+1)^2), and the far corner of the last cell is the
      last vertex. Both tessellators index their (n+1) x (n+1) vertex grids this way. */
  lemma CellCornersInGrid(n: int, row: nat, col: nat)
    requires row < n && col < n
    ensures 0 <= row * (n + 1) + col
    ensures row * (n + 1) + col + n + 1 + 1 <= (n + 1) * (n + 1) - 1
    ensures row == n - 1 && col == n - 1 ==> row * (n + 1) + col + n + 1 + 1 == (n + 1) * (n + 1) - 1
  {
    assert row * (n + 1) <= (n - 1) * (n + 1) by {
      var d := n - 1 - row;
      assert (n - 1) * (n + 1) == row * (n + 1) + d * (n + 1);
    }
    assert (n - 1) * (n + 1) == (n + 1) * (n + 1) - 2 * (n + 1);
  }
}
