/** The orbital camera and the input callbacks that drive it (`cursorPosCallback`,
    `mouseButtonCallback`, `scrollCallback`), with angles as exact reals. */
module Camera {

  /** `pi<float>()`: the single-precision value nearest to pi, as an exact real. */
  const Pi: real := 3.1415927410125732421875
  const HalfPi: real := Pi / 2.0

  /** GLFW's codes for the left mouse button and for a press. */
  const LeftButton: int := 0
  const Press: int := 1

  datatype Point = Point(x: real, y: real)

  /** Pitch, yaw and distance of the camera, the left-button drag flag and the last
      pointer position. */
  datatype Camera = Camera(pitch: real, yaw: real, distance: real, leftMouseDown: bool, mouse: Point)

  /** The header's defaults. The last pointer position starts unset, so it is a parameter. */
  function Initial(mouse: Point): Camera
  {
    Camera(0.86, -0.86, 20.0, false, mouse)
  }

  /** The four arc-cosine terms of one drag step: for y (pitch) and x (yaw), the term at
      the previous pointer position and at the new one. How they are computed from the
      positions and the window size is not modelled. */
  datatype DragAngles = DragAngles(fromY: real, toY: real, fromX: real, toX: real)

  /** What an arc cosine can return: every term lies in [0, Pi]. */
  predicate ArcCosines(a: DragAngles)
  {
    && 0.0 <= a.fromY <= Pi && 0.0 <= a.toY <= Pi
    && 0.0 <= a.fromX <= Pi && 0.0 <= a.toX <= Pi
  }

  /** `glm::clamp(v, lo, hi)`, that is min(max(v, lo), hi). */
  function Clamp(v: real, lo: real, hi: real): real
  {
    var m := if v < lo then lo else v;
    if hi < m then hi else m
  }

  /** Clamping into [lo, hi] lands in [lo, hi], keeps values already there, and otherwise
      picks the nearer bound. */
  lemma ClampRange(v: real, lo: real, hi: real)
    requires lo <= hi
    ensures lo <= Clamp(v, lo, hi) <= hi
    ensures lo <= v <= hi ==> Clamp(v, lo, hi) == v
    ensures v < lo ==> Clamp(v, lo, hi) == lo
    ensures v > hi ==> Clamp(v, lo, hi) == hi
  {
  }

  /** The single wrap applied to the yaw: subtract 2 Pi above Pi, add 2 Pi below -Pi. */
  function WrapYaw(yaw: real): (r: real)
    ensures r == yaw || r == yaw - 2.0 * Pi || r == yaw + 2.0 * Pi
    ensures -Pi <= yaw <= Pi ==> r == yaw
  {
    if yaw > Pi then yaw - 2.0 * Pi
    else if yaw < -Pi then yaw + 2.0 * Pi
    else yaw
  }

  /** One wrap suffices for anything within 2 Pi of zero; -Pi itself is kept, so the
      range reached is [-Pi, Pi]. */
  lemma WrapYawRange(yaw: real)
    requires -2.0 * Pi <= yaw <= 2.0 * Pi
    ensures -Pi <= WrapYaw(yaw) <= Pi
  {
  }

  /** `cursorPosCallback`: while the left button is down, move pitch and yaw by the
      difference of the arc-cosine terms, clamp the pitch and wrap the yaw; always record
      the new pointer position. */
  function CursorPos(c: Camera, pos: Point, a: DragAngles): (r: Camera)
    ensures r.mouse == pos
    ensures r.distance == c.distance && r.leftMouseDown == c.leftMouseDown
    ensures !c.leftMouseDown ==> r == c.(mouse := pos)
    ensures c.leftMouseDown ==> -HalfPi <= r.pitch <= HalfPi
    ensures c.leftMouseDown && c.pitch + (a.fromY - a.toY) > HalfPi ==> r.pitch == HalfPi
    ensures c.leftMouseDown && c.pitch + (a.fromY - a.toY) < -HalfPi ==> r.pitch == -HalfPi
  {
    if c.leftMouseDown then
      var pitch := Clamp(c.pitch + (a.fromY - a.toY), -HalfPi, HalfPi);
      var yaw := WrapYaw(c.yaw + (a.fromX - a.toX));
      ClampRange(c.pitch + (a.fromY - a.toY), -HalfPi, HalfPi);
      c.(pitch := pitch, yaw := yaw, mouse := pos)
    else
      c.(mouse := pos)
  }

  /** A drag step keeps the pitch in [-Pi/2, Pi/2] whatever the angles, moves it by exactly
      the delta when that stays inside, saturates at the nearer bound otherwise, and keeps a yaw in [-Pi, Pi] there, since a
      difference of two arc cosines is at most Pi in size; the new yaw points the same
      way as yaw + delta. */
  lemma DragStep(c: Camera, pos: Point, a: DragAngles)
    requires c.leftMouseDown
    ensures -HalfPi <= CursorPos(c, pos, a).pitch <= HalfPi
    ensures -HalfPi <= c.pitch + (a.fromY - a.toY) <= HalfPi ==>
              CursorPos(c, pos, a).pitch == c.pitch + (a.fromY - a.toY)
    ensures c.pitch + (a.fromY - a.toY) > HalfPi ==> CursorPos(c, pos, a).pitch == HalfPi
    ensures c.pitch + (a.fromY - a.toY) < -HalfPi ==> CursorPos(c, pos, a).pitch == -HalfPi
    ensures var y := c.yaw + (a.fromX - a.toX);
            CursorPos(c, pos, a).yaw in {y, y - 2.0 * Pi, y + 2.0 * Pi}
    ensures ArcCosines(a) && -Pi <= c.yaw <= Pi ==> -Pi <= CursorPos(c, pos, a).yaw <= Pi
  {
    ClampRange(c.pitch + (a.fromY - a.toY), -HalfPi, HalfPi);
    if ArcCosines(a) && -Pi <= c.yaw <= Pi {
      WrapYawRange(c.yaw + (a.fromX - a.toX));
    }
  }

  /** `mouseButtonCallback`: the left button sets the drag flag to "is this a press";
      any other button changes nothing. The modifier bits are ignored. */
  function MouseButton(c: Camera, button: int, action: int, mods: int): (r: Camera)
    ensures button == LeftButton ==> r == c.(leftMouseDown := action == Press)
    ensures button != LeftButton ==> r == c
  {
    if button == LeftButton then c.(leftMouseDown := action == Press) else c
  }

  /** `scrollCallback`: the distance is multiplied by the zoom factor, which stands for
      `pow(1.1, -yoffset)` and is an input here. */
  function Scroll(c: Camera, zoom: real): (r: Camera)
    ensures c.distance > 0.0 && zoom > 0.0 ==> r.distance > 0.0
    ensures r == c.(distance := r.distance)
  {
    c.(distance := c.distance * zoom)
  }

  /** Two scroll steps compound multiplicatively. */
  lemma ScrollCompounds(c: Camera, z1: real, z2: real)
    ensures Scroll(Scroll(c, z1), z2) == Scroll(c, z1 * z2)
  {
  }

  /** The camera invariant the callbacks keep. */
  predicate Valid(c: Camera)
  {
    -HalfPi <= c.pitch <= HalfPi && -Pi <= c.yaw <= Pi && c.distance > 0.0
  }

  lemma InitialValid(mouse: Point)
    ensures Valid(Initial(mouse)) && !Initial(mouse).leftMouseDown
  {
  }

  /** One input event as the window system delivers it. */
  datatype Event =
    | Move(pos: Point, angles: DragAngles)
    | Button(button: int, action: int, mods: int)
    | Wheel(zoom: real)

  /** Events that can actually occur: arc cosines in range, positive zoom factors. */
  predicate Possible(e: Event)
  {
    match e
    case Move(_, a) => ArcCosines(a)
    case Button(_, _, _) => true
    case Wheel(z) => z > 0.0
  }

  function Step(c: Camera, e: Event): Camera
  {
    match e
    case Move(p, a) => CursorPos(c, p, a)
    case Button(b, act, m) => MouseButton(c, b, act, m)
    case Wheel(z) => Scroll(c, z)
  }

  function Run(c: Camera, events: seq<Event>): Camera
    decreases |events|
  {
    if events == [] then c else Run(Step(c, events[0]), events[1..])
  }

  lemma StepValid(c: Camera, e: Event)
    requires Valid(c) && Possible(e)
    ensures Valid(Step(c, e))
  {
    if e.Move? && c.leftMouseDown {
      DragStep(c, e.pos, e.angles);
    }
  }

  /** Pitch in [-Pi/2, Pi/2], yaw in [-Pi, Pi] and a positive distance hold after any
      sequence of possible events. */
  lemma {:induction false} RunValid(c: Camera, events: seq<Event>)
    requires Valid(c)
    requires forall i :: 0 <= i < |events| ==> Possible(events[i])
    ensures Valid(Run(c, events))
    decreases |events|
  {
    if events != [] {
      StepValid(c, events[0]);
      RunValid(Step(c, events[0]), events[1..]);
    }
  }

  /** Without the button held, pointer moves only record the position. */
  lemma {:induction false} MovesWithoutDragOnlyTrack(c: Camera, events: seq<Event>)
    requires !c.leftMouseDown
    requires forall i :: 0 <= i < |events| ==> events[i].Move?
    ensures events != [] ==> Run(c, events) == c.(mouse := events[|events| - 1].pos)
    ensures events == [] ==> Run(c, events) == c
    decreases |events|
  {
    if events != [] {
      var c' := Step(c, events[0]);
      assert c' == c.(mouse := events[0].pos);
      MovesWithoutDragOnlyTrack(c', events[1..]);
    }
  }

  /** The yaw can end at exactly -Pi: a yaw of -Pi/2 dragged by -Pi/2 is not wrapped, so
      the range is [-Pi, Pi] and not (-Pi, Pi]. */
  lemma YawReachesMinusPi(mouse: Point, pos: Point)
    ensures var c := Camera(0.0, -HalfPi, 20.0, true, mouse);
            var a := DragAngles(0.0, 0.0, 0.0, HalfPi);
            ArcCosines(a) && CursorPos(c, pos, a).yaw == -Pi
  {
  }
}
