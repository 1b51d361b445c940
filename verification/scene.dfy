/** The generation parameters and the model's mesh list, with the operations that rebuild
    the mesh list: `drawGeometry`, the two sphere builders, the subdivision clamp and the
    geometry section of the settings panel (`renderGUI`). */
module Scene {
  import opened Options
  import opened Loops
  import opened Mesh
  import LatLong
  import CubeSphere

  const LatLongMode: int := 0
  const CubeMode: int := 1
  /** The torus mode: selectable, but nothing is generated for it. */
  const TorusMode: int := 2

  /** `subdiv`, `geometryMode` and `radius` of the application and `meshs` of its model. */
  datatype Scene = Scene(subdiv: int, geometryMode: int, radius: int, meshes: seq<Mesh>)

  /** The generation parameters agree; the mesh lists may not. */
  predicate SameSettings(a: Scene, b: Scene)
  {
    a.subdiv == b.subdiv && a.geometryMode == b.geometryMode && a.radius == b.radius
  }

  ghost predicate AllWellFormed(meshes: seq<Mesh>)
  {
    forall i :: 0 <= i < |meshes| ==> WellFormed(meshes[i])
  }

  /** `sphereLatlong`: clear the mesh list, then push the single lat/long mesh. */
  function SphereLatlong(sc: Scene): (r: Scene)
    ensures SameSettings(r, sc)
    ensures |r.meshes| == 1 && WellFormed(r.meshes[0])
    ensures |r.meshes[0].vertices| == Count(sc.subdiv + 1) * Count(sc.subdiv + 1)
    ensures |r.meshes[0].indices| == 6 * Count(sc.subdiv) * Count(sc.subdiv)
  {
    LatLong.SphereWellFormed(sc.subdiv);
    LatLong.VertexGrid(sc.subdiv);
    LatLong.IndexCount(sc.subdiv);
    sc.(meshes := [LatLong.Sphere(sc.subdiv)])
  }

  /** `sphereFromCube`: clear the mesh list, then push the six face meshes in table order. */
  function SphereFromCube(sc: Scene): (r: Scene)
    ensures SameSettings(r, sc)
    ensures |r.meshes| == 6 && AllWellFormed(r.meshes)
    ensures forall i, v :: 0 <= i < 6 && v in r.meshes[i].vertices ==>
              v.CubeVertex? && v.face == CubeSphere.FaceOrder[i]
  {
    CubeSphere.SphereFromCubeShape(sc.subdiv);
    sc.(meshes := CubeSphere.SphereFromCube(sc.subdiv))
  }

  /** `drawGeometry`: mode 0 builds the lat/long sphere, mode 1 the cube sphere, and
      every other mode, the torus among them, leaves the scene as it is. */
  function DrawGeometry(sc: Scene): (r: Scene)
    ensures SameSettings(r, sc)
    ensures sc.geometryMode == LatLongMode ==> r.meshes == [LatLong.Sphere(sc.subdiv)]
    ensures sc.geometryMode == CubeMode ==> r.meshes == CubeSphere.SphereFromCube(sc.subdiv)
    ensures sc.geometryMode != LatLongMode && sc.geometryMode != CubeMode ==> r == sc
    ensures sc.geometryMode == TorusMode ==> r.meshes == sc.meshes
    ensures AllWellFormed(sc.meshes) ==> AllWellFormed(r.meshes)
  {
    if sc.geometryMode == LatLongMode then SphereLatlong(sc)
    else if sc.geometryMode == CubeMode then SphereFromCube(sc)
    else sc
  }

  /** Rebuilding replaces the mesh list: what was there before has no influence. */
  lemma DrawGeometryDiscardsOldMeshes(a: Scene, b: Scene)
    requires SameSettings(a, b)
    requires a.geometryMode == LatLongMode || a.geometryMode == CubeMode
    ensures DrawGeometry(a) == DrawGeometry(b)
  {
  }

  /** Rebuilding twice is the same as rebuilding once. */
  lemma DrawGeometryIdempotent(sc: Scene)
    ensures DrawGeometry(DrawGeometry(sc)) == DrawGeometry(sc)
  {
  }

  /** The smallest subdivision count the panel lets through: 4 for lat/long, 1 otherwise. */
  function MinSubdiv(mode: int): (m: int)
    ensures m >= 1
    ensures mode == LatLongMode ==> m == 4
    ensures mode != LatLongMode ==> m == 1
  {
    if mode == LatLongMode then 4 else 1
  }

  /** The clamp at the top of the geometry section: raise `subdiv` to the mode's minimum
      and rebuild, or do nothing. The flag says whether the clamp fired. */
  function ClampSubdiv(sc: Scene): (r: (Scene, bool))
    ensures r.0.subdiv >= MinSubdiv(sc.geometryMode) && r.0.subdiv >= sc.subdiv
    ensures r.0.subdiv == sc.subdiv || r.0.subdiv == MinSubdiv(sc.geometryMode)
    ensures r.1 <==> sc.subdiv < MinSubdiv(sc.geometryMode)
    ensures !r.1 ==> r.0 == sc
    ensures r.1 ==> r.0 == DrawGeometry(r.0) && r.0.geometryMode == sc.geometryMode && r.0.radius == sc.radius
    ensures sc.geometryMode != LatLongMode && sc.geometryMode != CubeMode ==> r.0.meshes == sc.meshes
  {
    var subdivMin := MinSubdiv(sc.geometryMode);
    if sc.subdiv < subdivMin then (DrawGeometry(sc.(subdiv := subdivMin)), true)
    else (sc, false)
  }

  /** What the three geometry widgets reported this frame: Some(v) when the widget was
      changed to v (the Mode combo, the subdiv slider, the radius slider). */
  datatype Edits = Edits(mode: Option<int>, subdiv: Option<int>, radius: Option<int>)

  const NoEdits: Edits := Edits(None, None, None)

  /** The geometry section of `renderGUI`: the clamp, then one rebuild after each widget
      that reports a change, in widget order. */
  function GeometryPanel(sc: Scene, e: Edits): Scene
  {
    var s1 := ClampSubdiv(sc).0;
    var s2 := if e.mode.Some? then DrawGeometry(s1.(geometryMode := e.mode.value)) else s1;
    var s3 := if e.subdiv.Some? then DrawGeometry(s2.(subdiv := e.subdiv.value)) else s2;
    if e.radius.Some? then DrawGeometry(s3.(radius := e.radius.value)) else s3
  }

  /** Some rebuild ran this frame. */
  predicate Rebuilt(sc: Scene, e: Edits)
  {
    ClampSubdiv(sc).1 || e.mode.Some? || e.subdiv.Some? || e.radius.Some?
  }

  /** After a frame the parameters are the edited ones (or the clamped ones); without a
      rebuild nothing changed; after a rebuild in mode 0 or 1 the mesh list is exactly the
      one the final parameters generate, whatever it held before; well-formed mesh lists
      stay well formed. */
  lemma GeometryPanelEffect(sc: Scene, e: Edits)
    ensures var r := GeometryPanel(sc, e);
            && r.geometryMode == (if e.mode.Some? then e.mode.value else sc.geometryMode)
            && r.radius == (if e.radius.Some? then e.radius.value else sc.radius)
            && r.subdiv == (if e.subdiv.Some? then e.subdiv.value else ClampSubdiv(sc).0.subdiv)
            && (!Rebuilt(sc, e) ==> r == sc)
            && (Rebuilt(sc, e) && (r.geometryMode == LatLongMode || r.geometryMode == CubeMode) ==>
                  r == DrawGeometry(r))
            && (AllWellFormed(sc.meshes) ==> AllWellFormed(r.meshes))
  {
    var s1 := ClampSubdiv(sc).0;
    var s2 := if e.mode.Some? then DrawGeometry(s1.(geometryMode := e.mode.value)) else s1;
    var s3 := if e.subdiv.Some? then DrawGeometry(s2.(subdiv := e.subdiv.value)) else s2;
    if e.mode.Some? {
      DrawGeometryIdempotent(s1.(geometryMode := e.mode.value));
    }
    if e.subdiv.Some? {
      DrawGeometryIdempotent(s2.(subdiv := e.subdiv.value));
    }
    if e.radius.Some? {
      DrawGeometryIdempotent(s3.(radius := e.radius.value));
    }
  }

  /** The minimum is computed before the Mode combo runs, so switching from the cube
      sphere with subdiv 1 to lat/long builds a lat/long sphere with subdiv 1 in that
      frame; only the clamp of the next frame raises it to 4 and rebuilds. */
  lemma ModeSwitchClampsNextFrame(radius: int, meshes: seq<Mesh>)
    ensures var first := GeometryPanel(Scene(1, CubeMode, radius, meshes), Edits(Some(LatLongMode), None, None));
            && first == Scene(1, LatLongMode, radius, [LatLong.Sphere(1)])
            && first.subdiv < MinSubdiv(first.geometryMode)
            && GeometryPanel(first, NoEdits) == Scene(4, LatLongMode, radius, [LatLong.Sphere(4)])
  {
  }

  /** The header's initial `subdiv` and `radius`. */
  const DefaultSubdiv: int := 20
  const DefaultRadius: int := 5

  /** The application's state after construction: the header's defaults, then one
      `sphereLatlong`. */
  function Initial(): Scene
  {
    SphereLatlong(Scene(DefaultSubdiv, LatLongMode, DefaultRadius, []))
  }

  /** A fresh lat/long scene whose subdivision meets the minimum is left alone by the
      clamp and holds one (s+1)^2-vertex, 6 s^2-index mesh. */
  lemma FreshLatLong(s: int, radius: int)
    requires s >= MinSubdiv(LatLongMode)
    ensures var sc := SphereLatlong(Scene(s, LatLongMode, radius, []));
            && ClampSubdiv(sc) == (sc, false)
            && |sc.meshes| == 1 && WellFormed(sc.meshes[0])
            && |sc.meshes[0].vertices| == (s + 1) * (s + 1)
            && |sc.meshes[0].indices| == 6 * s * s
  {
  }

  /** The defaults already meet the lat/long minimum, so the first frame's clamp does not
      fire; the radius is at least 1, so the cube step radius / subdiv is defined; the one
      initial mesh has 21^2 = 441 vertices and 6 * 20^2 = 2400 indices. */
  lemma InitialScene()
    ensures Initial().geometryMode == LatLongMode
    ensures Initial().subdiv == 20 && Initial().subdiv >= MinSubdiv(Initial().geometryMode)
    ensures Initial().radius == 5 && Initial().radius >= 1
    ensures ClampSubdiv(Initial()) == (Initial(), false)
    ensures |Initial().meshes| == 1 && WellFormed(Initial().meshes[0])
    ensures |Initial().meshes[0].vertices| == 441 && |Initial().meshes[0].indices| == 2400
  {
    FreshLatLong(DefaultSubdiv, DefaultRadius);
  }
}
