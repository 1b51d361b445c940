# Sphere tessellation and orbital camera, modelled in Dafny

This project models the core of a small real-time 3D viewer: the two procedural sphere
tessellators, the mode and subdivision logic that decides when the mesh list is rebuilt,
and the orbital camera driven by mouse input.

- **Lat/long sphere** (`Application::sphereLatlong`). Builds an (s+1) x (s+1) vertex grid,
  lon outer and lat inner. Each of the s x s cells gets the corners k1 = lat*(s+1)+lon,
  k1+1, k2 = k1+s+1 and k2+1. It emits the triangles [k1, k2, k1+1] and [k2, k2+1, k1+1].
  The mesh list is then cleared and this single mesh is pushed.
- **Cube sphere** (`Application::generateCubeFace`, `Application::sphereFromCube`). Builds
  six independent face grids, one per entry of a hard-coded face-matrix table. A face cell
  has the corners k1 = x+y*(s+1) and k2 = x+(y+1)*(s+1). It emits [k1, k2, k2+1] and
  [k2+1, k1, k1+1].
- **Mode dispatch and subdivision clamp** (`drawGeometry`, the geometry section of
  `renderGUI`). Mode 0 builds the lat/long sphere, mode 1 the cube sphere, and mode 2 (the
  torus) does nothing. Subdivision is raised to 4 in mode 0 and to 1 otherwise, with a
  rebuild only when the clamp fires.
- **Orbital camera** (`cursorPosCallback`, `mouseButtonCallback`, `scrollCallback`, and the
  defaults in `application.hpp`). Camera state is pitch, yaw, distance, a left-button drag
  flag and the last pointer position.

Vertices are modelled by identity, not position. A `Mesh.Vertex` records the loop counters
the source computes a vertex's position and normal from: `LatLongVertex(lon, lat)` or
`CubeVertex(face, x, y)`. The cube-face placement *before* normalisation is plain linear
algebra, so `CubeProjection` models it over exact reals. That is how the face table is
shown to tile the cube and to make adjacent faces share their edges.

Modules: `Loops` (output of two nested counting loops), `Mesh`, `LatLong`, `CubeSphere`,
`CubeProjection`, `Remap` (`Application::map`), `Scene` and `Camera`. `Options` holds an
optional-value type.

Three behaviours of the code worth knowing:

- The yaw is wrapped once with the tests `> pi` and `< -pi`. A yaw of exactly -pi is
  therefore kept, so the range the code maintains is the closed interval [-pi, pi]
  (`Camera.YawReachesMinusPi`).
- The minimum subdivision is computed *before* the Mode combo runs. Switching from the
  cube sphere at subdiv 1 to lat/long builds a lat/long mesh with subdiv 1 in that frame.
  The clamp raises it to 4, and rebuilds, only at the next frame (`Scene.ModeSwitchClampsNextFrame`).
- The index loops of `sphereLatlong` use k1 = lat*(s+1)+lon. The vertex loops, however,
  store vertex (lon, lat) at lon*(s+1)+lat. So each cell walks the grid transposed. On a
  square grid this is harmless: every cell's corners are still four neighbouring grid
  vertices (`LatLong.CellCorners`).

## Model

| member | source | states |
|---|---|---|
| Loops.NestedLength | src/application.cpp:188-203 | Two nested counting loops whose body pushes k elements per iteration push rows*cols*k elements |
| Loops.NestedAt | src/application.cpp:245-257 | Element j pushed by iteration (r, c) of the nested loops ends up at position (r*cols + c)*k + j |
| Loops.NestedSlice | src/application.cpp:245-257 | The k positions from (r*cols + c)*k on hold exactly what iteration (r, c) pushed, in order |
| Loops.NestedAll | src/application.cpp:165-185 | A property of every element any iteration pushes holds of every element of the output |
| Mesh.CellCornersInGrid | src/application.cpp:190-191 | For a cell with row, col < n, corners k1 = row*(n+1)+col up to k2+1 lie in [0, (n+1)^2); the last cell's k2+1 is exactly (n+1)^2 - 1 |
| LatLong.VertexGrid | src/application.cpp:165-185 | The lat/long vertex loops push (s+1)^2 vertices (none for s < 0); vertex p is the one for lon = p/(s+1), lat = p%(s+1), so each (lon, lat) pair appears once, lon-major |
| LatLong.IndexCount | src/application.cpp:188-203 | The lat/long index loops push 6*s^2 indices (none for s <= 0), a multiple of 3 |
| LatLong.CellWinding | src/application.cpp:190-201 | Cell (lon, lat) occupies slots 6*(lon*s+lat) .. +6, holding [k1, k2, k1+1] then [k2, k2+1, k1+1] with k1 = lat*(s+1)+lon, k2 = k1+s+1 |
| LatLong.IndicesInRange | src/application.cpp:188-203 | Every lat/long index lies in [0, vertex count) |
| LatLong.LargestIndex | src/application.cpp:199-200 | For s >= 1 the index (s+1)^2 - 1 occurs and no index is larger |
| LatLong.CellCorners | src/application.cpp:165-201 | The four corners of cell (lon, lat) are the grid vertices (lat, lon), (lat, lon+1), (lat+1, lon), (lat+1, lon+1) |
| LatLong.SphereWellFormed | src/application.cpp:161-207 | The lat/long mesh has whole triangles and only valid indices |
| LatLong.IndicesFitInt32 | src/application.cpp:190-191 | For s <= 46339 every index fits the 32-bit `int` the source stores k1 and k2 in |
| CubeSphere.FaceVertexGrid | src/application.cpp:231-242 | A face pushes (s+1)^2 vertices; vertex p is the one for x = p%(s+1), y = p/(s+1), all of face f |
| CubeSphere.FaceIndexCount | src/application.cpp:245-257 | A face pushes 6*s^2 indices, a multiple of 3 |
| CubeSphere.FaceCellWinding | src/application.cpp:247-255 | Cell (x, y) occupies slots 6*(y*s+x) .. +6, holding [k1, k2, k2+1] then [k2+1, k1, k1+1] with k1 = x+y*(s+1), k2 = x+(y+1)*(s+1) |
| CubeSphere.FaceIndicesInRange | src/application.cpp:245-257 | Every face index lies in [0, (s+1)^2) |
| CubeSphere.FaceCellCorners | src/application.cpp:231-257 | The corners of face cell (x, y) are the face's grid vertices (x, y), (x+1, y), (x, y+1), (x+1, y+1) |
| CubeSphere.CubeFaceWellFormed | src/application.cpp:227-258 | Each face mesh has whole triangles and only valid indices |
| CubeSphere.SphereFromCubeShape | src/application.cpp:209-225 | Exactly six meshes, mesh i holding only vertices of face-table entry i, each well formed with (s+1)^2 vertices and 6*s^2 indices |
| CubeProjection.FacePoint | src/application.cpp:212-219 | Each face matrix maps grid point (x, y) onto the plane named for it: (a, b, ±h), (a, ±h, b) or (±h, b, a) with h = radius/2 and a, b the grid offsets |
| CubeProjection.OffsetEnds | src/application.cpp:228-234 | Grid lines 0 and s sit at -radius/2 and +radius/2 |
| CubeProjection.OnCubeFace | src/application.cpp:234-235 | Before normalisation every vertex of face f lies on face f of the cube [-radius/2, radius/2]^3 |
| CubeProjection.SharedEdge | src/application.cpp:212-219 | Every boundary vertex of a face is also a vertex of a different face, so adjacent faces meet without a seam |
| Remap.Map | src/application.cpp:260-262 | The result is undefined exactly when inMax == inMin (the division by zero) |
| Remap.MapEndpoints | src/application.cpp:260-262 | inMin goes to outMin and inMax to outMax |
| Remap.MapRoundTrip | src/application.cpp:260-262 | Mapping back with the ranges swapped returns the original value |
| Remap.MapWithin | src/application.cpp:260-262 | A value in [inMin, inMax] lands in [outMin, outMax] |
| Remap.LatLongAngles | src/application.cpp:166-168 | For counters in [0, s], phi lies in [0, PI] and theta in [0, 2 PI]; for both angles counter 0 gives 0 and counter s the full angle |
| Scene.SphereLatlong | src/application.cpp:161-207 | Afterwards the mesh list holds exactly one well-formed mesh with (s+1)^2 vertices and 6*s^2 indices; the parameters are unchanged |
| Scene.SphereFromCube | src/application.cpp:209-225 | Afterwards the mesh list holds exactly six well-formed meshes, mesh i made of face-table entry i's vertices |
| Scene.DrawGeometry | src/application.cpp:147-159 | Mode 0 leaves exactly [the lat/long sphere]; mode 1 leaves the six faces; every other mode, torus mode 2 among them, leaves the scene unchanged; the parameters never change; well-formed lists stay well formed |
| Scene.DrawGeometryDiscardsOldMeshes | src/application.cpp:147-159 | In modes 0 and 1 the result does not depend on the previous mesh list |
| Scene.DrawGeometryIdempotent | src/application.cpp:147-159 | Rebuilding twice equals rebuilding once |
| Scene.MinSubdiv | src/application.cpp:118 | The minimum is 4 in mode 0 and exactly 1 in every other mode |
| Scene.ClampSubdiv | src/application.cpp:118-122 | Afterwards subdiv = max(subdiv, minimum); the clamp fires exactly when subdiv was below the minimum; if it did not fire nothing changes, and if it did the mesh list matches the new parameters; outside modes 0 and 1 the mesh list is kept as it was |
| Scene.GeometryPanelEffect | src/application.cpp:118-128 | After the geometry section the parameters are the edited or clamped ones; with no rebuild nothing changed; after a rebuild in mode 0 or 1 the mesh list is exactly the one the final parameters generate; well-formedness is kept |
| Scene.ModeSwitchClampsNextFrame | src/application.cpp:118-124 | Switching mode 1 -> 0 at subdiv 1 yields a lat/long mesh at subdiv 1 that frame, and subdiv 4 with a rebuilt mesh the next frame |
| Scene.FreshLatLong | src/application.cpp:118-122 | A freshly built lat/long scene whose subdiv meets the minimum is left alone by the clamp and holds one mesh of (s+1)^2 vertices and 6*s^2 indices |
| Scene.InitialScene | src/application.hpp:61-64 | Defaults subdiv 20, mode 0, radius 5 meet the minimums, so the first clamp does not fire; the initial single mesh has 441 vertices and 2400 indices |
| Camera.ClampRange | src/application.cpp:271 | glm clamp lands in [lo, hi], keeps values inside and otherwise yields the nearer bound |
| Camera.WrapYaw | src/application.cpp:276-277 | The wrapped yaw differs from the input by 0 or ±2 pi, and is unchanged when already in [-pi, pi] |
| Camera.WrapYawRange | src/application.cpp:276-277 | A yaw in [-2 pi, 2 pi] ends in [-pi, pi] after the single wrap |
| Camera.CursorPos | src/application.cpp:264-282 | The pointer position is always recorded; without the drag flag nothing else changes; with it the pitch ends in [-pi/2, pi/2], saturating at pi/2 or -pi/2 when the moved pitch lies beyond; distance and flag are untouched |
| Camera.DragStep | src/application.cpp:268-277 | A drag keeps pitch in [-pi/2, pi/2] for any delta, moves it exactly when inside and saturates at the nearer bound otherwise; yaw becomes yaw+delta up to ±2 pi and stays in [-pi, pi] when the terms are arc cosines |
| Camera.YawReachesMinusPi | src/application.cpp:276-277 | A yaw of exactly -pi survives the wrap |
| Camera.MouseButton | src/application.cpp:285-291 | The left button sets the drag flag to (action == press); other buttons change nothing |
| Camera.Scroll | src/application.cpp:294-297 | Only the distance changes; it stays positive under a positive zoom factor |
| Camera.ScrollCompounds | src/application.cpp:296 | Two scroll steps equal one step with the product of their factors |
| Camera.InitialValid | src/application.hpp:46-51 | The defaults (pitch 0.86, yaw -0.86, distance 20, flag clear) satisfy the camera invariant |
| Camera.StepValid | src/application.cpp:264-297 | Every possible input event preserves the invariant: pitch in [-pi/2, pi/2], yaw in [-pi, pi], distance > 0 |
| Camera.RunValid | src/application.cpp:264-297 | The invariant holds after any sequence of possible input events |
| Camera.MovesWithoutDragOnlyTrack | src/application.cpp:264-282 | Without the button held, any run of pointer moves only updates the recorded position |

## Left out

- Vertex positions, normals and UVs are left out: they are computed with `sin`, `cos` and
  `normalize`, which is floating-point trigonometry. Vertices are modelled by the loop
  counters they come from.
- CubeProjection.CubePoint: modelled over exact reals and only before normalisation.
  In single precision, `x * jumpSize` at x = subdiv need not equal `radius` exactly, so the
  exact seam of `SharedEdge` is an idealisation. It requires subdiv != 0, because the float
  division would give infinities there.
- Remap.Map: a division by zero gives None. In the source it gives an infinity or NaN.
- Camera.CursorPos: the four arc-cosine terms are inputs (`DragAngles`). They are taken
  to lie in [0, pi], the range of `acos`. How they are computed from the pointer and the
  window size is not modelled, including the NaN that a zero-sized window would produce.
- Camera.Scroll: the factor `pow(1.1, -yoffset)` is an input. It underflows to 0
  for very large scroll offsets, and the model only promises a positive distance for a
  positive factor.
- Floats are modelled as exact reals, so single-precision rounding of pitch, yaw and
  distance is not modelled.
- The settings-panel sliders for pitch, yaw and distance are left out, as is all other
  widget wiring. The distance slider allows 0, so the positive-distance invariant covers
  only the input callbacks. The geometry widgets' new values are arbitrary inputs
  (`Scene.Edits`), so their slider bounds are not modelled.
- LatLong.IndicesFitInt32: 32-bit wrap-around of k1 and k2 is not modelled. The lemma only
  shows that no index overflows up to subdiv 46339.
- `basic_model::draw`, `render` and the view and projection matrices are left out: they
  are OpenGL and GLM calls. The shader building in the constructor and the GPU upload in
  `mesh_builder::build` are left out for the same reason. A mesh is its vertex and index
  lists.
- `keyCallback` and `charCallback` are empty and left out. `torusLatLong` is declared but
  never defined; torus mode is modelled as the no-op branch of `drawGeometry`.
