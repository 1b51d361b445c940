/** Latitude/longitude sphere tessellation (`Application::sphereLatlong`): an
    (s+1) x (s+1) vertex grid and two triangles for each of the s x s grid cells. */
module LatLong {
  import opened Loops
  import opened Mesh

  /** The vertex loops push one vertex per (lon, lat) pair, lon outer and lat inner. */
  function VertexBody(): (nat, nat) -> seq<Vertex>
  {
    (lon: nat, lat: nat) => [LatLongVertex(lon, lat)]
  }

  /** The six indices the index loops push for the cell (lon, lat). */
  function CellIndices(s: int, lon: nat, lat: nat): seq<int>
  {
    var k1 := lat * (s + 1) + lon;
    var k2 := k1 + s + 1;
    [k1, k2, k1 + 1, k2, k2 + 1, k1 + 1]
  }

  function Cell(s: int): (nat, nat) -> seq<int>
  {
    (lon: nat, lat: nat) => CellIndices(s, lon, lat)
  }

  /** Vertex loops: `lon < subdiv + 1`, then `lat < subdiv + 1`. */
  function Vertices(s: int): seq<Vertex>
  {
    Nested(Count(s + 1), Count(s + 1), VertexBody())
  }

  /** Index loops: `lon < subdiv`, then `lat < subdiv`. */
  function Indices(s: int): seq<int>
  {
    Nested(Count(s), Count(s), Cell(s))
  }

  /** The mesh `sphereLatlong` builds for subdivision count s. */
  function Sphere(s: int): Mesh
  {
    Mesh(Vertices(s), Indices(s))
  }

  /** There are (s+1)^2 vertices, and vertex p is the one computed for
      lon = p / (s+1), lat = p % (s+1): every pair exactly once, lon-major. */
  lemma VertexGrid(s: int)
    ensures |Vertices(s)| == Count(s + 1) * Count(s + 1)
    ensures s >= 0 ==> |Vertices(s)| == (s + 1) * (s + 1)
    ensures forall p :: 0 <= p < |Vertices(s)| ==> Vertices(s)[p] == LatLongVertex(p / (s + 1), p % (s + 1))
  {
    VertexCount(s);
    forall p | 0 <= p < |Vertices(s)|
      ensures Vertices(s)[p] == LatLongVertex(p / (s + 1), p % (s + 1))
    {
      VertexAtPosition(s, p);
    }
  }

  lemma VertexCount(s: int)
    ensures |Vertices(s)| == Count(s + 1) * Count(s + 1)
    ensures s >= 0 ==> |Vertices(s)| == (s + 1) * (s + 1)
  {
    var n := Count(s + 1);
    NestedLength(n, n, VertexBody(), 1);
    assert n * n * 1 == n * n;
  }

  /** Position p of the vertex list splits into the loop counters that produced it. */
  lemma VertexAtPosition(s: int, p: int)
    requires 0 <= p < |Vertices(s)|
    ensures Vertices(s)[p] == LatLongVertex(p / (s + 1), p % (s + 1))
  {
    var n := Count(s + 1);
    VertexCount(s);
    assert n > 0 && n == s + 1;
    GridPosition(p, n);
    var lon, lat := p / n, p % n;
    VertexAt(s, lon, lat);
  }

  lemma VertexAt(s: int, lon: nat, lat: nat)
    requires lon <= s && lat <= s
    ensures lon * (s + 1) + lat < |Vertices(s)|
    ensures Vertices(s)[lon * (s + 1) + lat] == LatLongVertex(lon, lat)
  {
    NestedAt(s + 1, s + 1, VertexBody(), 1, lon, lat, 0);
    assert (lon * (s + 1) + lat) * 1 + 0 == lon * (s + 1) + lat;
  }

  /** Six indices per cell, so 6 * s^2 in all: whole triangles. */
  lemma IndexCount(s: int)
    ensures |Indices(s)| == 6 * Count(s) * Count(s)
    ensures |Indices(s)| % 3 == 0
  {
    var c := Count(s);
    NestedLength(c, c, Cell(s), 6);
    SixSquares(c);
  }

  /** Cell (lon, lat) is the (lon * s + lat)-th cell emitted, and its six indices are the
      triangles [k1, k2, k1+1] then [k2, k2+1, k1+1]. */
  lemma CellWinding(s: int, lon: nat, lat: nat)
    requires lon < s && lat < s
    ensures 6 * (lon * s + lat) + 6 <= |Indices(s)|
    ensures var k1 := lat * (s + 1) + lon;
            var k2 := k1 + s + 1;
            Indices(s)[6 * (lon * s + lat) .. 6 * (lon * s + lat) + 6] == [k1, k2, k1 + 1, k2, k2 + 1, k1 + 1]
  {
    assert 6 * (lon * s + lat) == (lon * s + lat) * 6;
    NestedSlice(s, s, Cell(s), 6, lon, lat);
  }

  /** Every index names a vertex of the grid. */
  lemma IndicesInRange(s: int)
    ensures forall i :: 0 <= i < |Indices(s)| ==> 0 <= Indices(s)[i] < |Vertices(s)|
  {
    VertexGrid(s);
    var n := Count(s);
    var InGrid := (x: int) => 0 <= x < (s + 1) * (s + 1);
    forall lon: nat, lat: nat, x | lon < n && lat < n && x in Cell(s)(lon, lat)
      ensures InGrid(x)
    {
      CellCornersInGrid(s, lat, lon);
    }
    NestedAll(n, n, Cell(s), InGrid);
    assert forall i :: 0 <= i < |Indices(s)| ==> Indices(s)[i] in Indices(s);
  }

  /** The largest index, k2 + 1 of the last cell, is the last vertex (s+1)^2 - 1. */
  lemma LargestIndex(s: int)
    requires s >= 1
    ensures (s + 1) * (s + 1) - 1 in Indices(s)
    ensures forall i :: i in Indices(s) ==> i <= (s + 1) * (s + 1) - 1
  {
    CellWinding(s, s - 1, s - 1);
    CellCornersInGrid(s, s - 1, s - 1);
    var b := 6 * ((s - 1) * s + (s - 1));
    assert Indices(s)[b + 4] == Indices(s)[b .. b + 6][4];
    IndicesInRange(s);
    VertexGrid(s);
  }

  /** The corners of cell (lon, lat) are the four grid neighbours (lat, lon), (lat+1, lon),
      (lat, lon+1), (lat+1, lon+1): the index loops walk the grid transposed with respect
      to the vertex loops, which is harmless on a square grid. */
  lemma CellCorners(s: int, lon: nat, lat: nat)
    requires lon < s && lat < s
    ensures var k1 := lat * (s + 1) + lon;
            var k2 := k1 + s + 1;
            && k2 + 1 < |Vertices(s)|
            && Vertices(s)[k1] == LatLongVertex(lat, lon)
            && Vertices(s)[k1 + 1] == LatLongVertex(lat, lon + 1)
            && Vertices(s)[k2] == LatLongVertex(lat + 1, lon)
            && Vertices(s)[k2 + 1] == LatLongVertex(lat + 1, lon + 1)
  {
    assert (lat + 1) * (s + 1) == lat * (s + 1) + s + 1;
    VertexAt(s, lat, lon);
    VertexAt(s, lat, lon + 1);
    VertexAt(s, lat + 1, lon);
    VertexAt(s, lat + 1, lon + 1);
  }

  /** The generated mesh is a valid indexed triangle list. */
  lemma SphereWellFormed(s: int)
    ensures WellFormed(Sphere(s))
  {
    IndexCount(s);
    IndicesInRange(s);
  }

  /** The source stores k1 and k2 in a 32-bit `int`; up to s = 46339 every index fits,
      since the largest is (s+1)^2 - 1 <= 46340^2 - 1. */
  lemma IndicesFitInt32(s: int)
    requires s <= 46339
    ensures forall i :: i in Indices(s) ==> 0 <= i <= 0x7fff_ffff
  {
    if s >= 1 {
      LargestIndex(s);
      IndicesInRange(s);
      MulMono(s + 1, 46340, s + 1);
      MulMono(s + 1, 46340, 46340);
    } else {
      assert Indices(s) == [];
    }
  }
}
