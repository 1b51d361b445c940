/** Where `generateCubeFace` places a grid point before normalising it onto the sphere:
    `vec3(x * jumpSize, y * jumpSize, radius) * faceMatrix[i]` with jumpSize = radius / subdiv.
    Modelled over exact reals; the float rounding and the later normalisation are not. */
module CubeProjection {
  import opened Mesh

  datatype Vec3 = Vec3(x: real, y: real, z: real)

  /** `glm::mat3(c0, c1, c2)`: a matrix given by its three columns. */
  datatype Mat3 = Mat3(c0: Vec3, c1: Vec3, c2: Vec3)

  function Dot(a: Vec3, b: Vec3): real
  {
    a.x * b.x + a.y * b.y + a.z * b.z
  }

  /** GLM's `v * m`: the row vector v times m, so component i is v dotted with column i. */
  function RowTimes(v: Vec3, m: Mat3): Vec3
  {
    Vec3(Dot(v, m.c0), Dot(v, m.c1), Dot(v, m.c2))
  }

  /** The hard-coded face-matrix table, entry by entry. */
  function FaceMatrix(f: Face): Mat3
  {
    match f
    case PosZ => Mat3(Vec3(1.0, 0.0, -0.5), Vec3(0.0, 1.0, -0.5), Vec3(0.0, 0.0, 0.5))
    case NegZ => Mat3(Vec3(1.0, 0.0, -0.5), Vec3(0.0, 1.0, -0.5), Vec3(0.0, 0.0, -0.5))
    case NegY => Mat3(Vec3(1.0, 0.0, -0.5), Vec3(0.0, 0.0, -0.5), Vec3(0.0, 1.0, -0.5))
    case PosY => Mat3(Vec3(1.0, 0.0, -0.5), Vec3(0.0, 0.0, 0.5), Vec3(0.0, 1.0, -0.5))
    case NegX => Mat3(Vec3(0.0, 0.0, -0.5), Vec3(0.0, 1.0, -0.5), Vec3(1.0, 0.0, -0.5))
    case PosX => Mat3(Vec3(0.0, 0.0, 0.5), Vec3(0.0, 1.0, -0.5), Vec3(1.0, 0.0, -0.5))
  }

  /** The un-normalised position of grid point (x, y) of face f. The float division
      `radius / subdiv` is only defined here for subdiv != 0. */
  function CubePoint(f: Face, x: nat, y: nat, radius: int, s: int): Vec3
    requires s != 0
  {
    var jump := radius as real / s as real;
    RowTimes(Vec3(x as real * jump, y as real * jump, radius as real), FaceMatrix(f))
  }

  /** p lies on face f of the axis-aligned cube [-h, h]^3. */
  ghost predicate OnFace(p: Vec3, f: Face, h: real)
  {
    && -h <= p.x <= h && -h <= p.y <= h && -h <= p.z <= h
    && match f
       case PosZ => p.z == h
       case NegZ => p.z == -h
       case NegY => p.y == -h
       case PosY => p.y == h
       case NegX => p.x == -h
       case PosX => p.x == h
  }

  /** The signed offset of grid line k from the middle of a face: k * jump - radius / 2. */
  function Offset(k: nat, radius: int, s: int): real
    requires s != 0
  {
    k as real * (radius as real / s as real) - radius as real / 2.0
  }

  /** The first and last grid lines sit on the cube's edges at -radius/2 and radius/2. */
  lemma OffsetEnds(radius: int, s: nat)
    requires s >= 1
    ensures Offset(0, radius, s) == -(radius as real / 2.0)
    ensures Offset(s, radius, s) == radius as real / 2.0
  {
    var jump := radius as real / s as real;
    assert s as real * jump == radius as real;
  }

  /** Each matrix maps grid point (x, y) to the face named for it: with a and b the
      offsets of x and y, the point is (a, b, ±h), (a, ±h, b) or (±h, b, a), h = radius / 2. */
  lemma FacePoint(f: Face, x: nat, y: nat, radius: int, s: int)
    requires s != 0
    ensures var h := radius as real / 2.0;
            var a := Offset(x, radius, s);
            var b := Offset(y, radius, s);
            CubePoint(f, x, y, radius, s) ==
              match f
              case PosZ => Vec3(a, b, h)
              case NegZ => Vec3(a, b, -h)
              case NegY => Vec3(a, -h, b)
              case PosY => Vec3(a, h, b)
              case NegX => Vec3(-h, b, a)
              case PosX => Vec3(h, b, a)
  {
  }

  /** x * (radius / s) ranges over [0, radius] as x ranges over [0, s]. */
  lemma StepWithin(x: nat, radius: int, s: int)
    requires s >= 1 && radius >= 0 && x <= s
    ensures 0.0 <= x as real * (radius as real / s as real) <= radius as real
  {
    var jump := radius as real / s as real;
    assert jump >= 0.0;
    assert s as real * jump == radius as real;
    assert x as real * jump <= s as real * jump;
  }

  /** Before normalisation every vertex of face f lies on face f of the cube of
      half-side radius / 2, so the six faces together cover the cube surface. */
  lemma OnCubeFace(f: Face, x: nat, y: nat, radius: int, s: int)
    requires s >= 1 && radius >= 0 && x <= s && y <= s
    ensures OnFace(CubePoint(f, x, y, radius, s), f, radius as real / 2.0)
  {
    FacePoint(f, x, y, radius, s);
    StepWithin(x, radius, s);
    StepWithin(y, radius, s);
  }

  predicate OnBoundary(x: nat, y: nat, s: nat)
  {
    x == 0 || x == s || y == 0 || y == s
  }

  /** For a boundary grid point of face f, the grid point of the adjacent face that
      the face matrices send to the same place. */
  function SeamPartner(f: Face, x: nat, y: nat, s: nat): (Face, nat, nat)
    requires OnBoundary(x, y, s)
  {
    match f
    case PosZ => if x == 0 then (NegX, s, y) else if x == s then (PosX, s, y)
                 else if y == 0 then (NegY, x, s) else (PosY, x, s)
    case NegZ => if x == 0 then (NegX, 0, y) else if x == s then (PosX, 0, y)
                 else if y == 0 then (NegY, x, 0) else (PosY, x, 0)
    case NegY => if x == 0 then (NegX, y, 0) else if x == s then (PosX, y, 0)
                 else if y == 0 then (NegZ, x, 0) else (PosZ, x, 0)
    case PosY => if x == 0 then (NegX, y, s) else if x == s then (PosX, y, s)
                 else if y == 0 then (NegZ, x, s) else (PosZ, x, s)
    case NegX => if x == 0 then (NegZ, 0, y) else if x == s then (PosZ, 0, y)
                 else if y == 0 then (NegY, 0, x) else (PosY, 0, x)
    case PosX => if x == 0 then (NegZ, s, y) else if x == s then (PosZ, s, y)
                 else if y == 0 then (NegY, s, x) else (PosY, s, x)
  }

  /** Every boundary vertex of a face coincides with a vertex of a different face: the
      six independently generated face grids meet along shared edges (before
      normalisation, which maps equal points to equal points). */
  lemma SharedEdge(f: Face, x: nat, y: nat, radius: int, s: nat)
    requires s >= 1 && x <= s && y <= s && OnBoundary(x, y, s)
    ensures var (g, x', y') := SeamPartner(f, x, y, s);
            && g != f && x' <= s && y' <= s
            && CubePoint(g, x', y', radius, s) == CubePoint(f, x, y, radius, s)
  {
    var (g, x', y') := SeamPartner(f, x, y, s);
    OffsetEnds(radius, s);
    FacePoint(f, x, y, radius, s);
    FacePoint(g, x', y', radius, s);
  }
}
