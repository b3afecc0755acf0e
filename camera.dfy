/** Camera pose operations: zoom, reset and the pose a navigation jumps to. */
module Camera {
  import opened Scene

  /** The camera's position and the point it was last told to `lookAt`. */
  datatype Pose = Pose(position: Vec3, lookAt: Vec3)

  const InitialPosition := Vec3(0.0, 100.0, 500.0)
  const InitialPose := Pose(InitialPosition, Origin)

  function Add(a: Vec3, b: Vec3): Vec3 { Vec3(a.x + b.x, a.y + b.y, a.z + b.z) }
  function Sub(a: Vec3, b: Vec3): Vec3 { Vec3(a.x - b.x, a.y - b.y, a.z - b.z) }
  function Scale(v: Vec3, f: real): Vec3 { Vec3(v.x * f, v.y * f, v.z * f) }
  function Norm2(v: Vec3): real { v.x * v.x + v.y * v.y + v.z * v.z }

  const ZoomSpeed: real := 0.1

  /** `handleWheel`'s factor: scrolling down (positive `deltaY`) moves the
      camera out, anything else moves it in. */
  function ZoomFactor(deltaY: real): (f: real)
    ensures f == 1.0 + ZoomSpeed || f == 1.0 - ZoomSpeed
    ensures f > 1.0 <==> deltaY > 0.0
  {
    if deltaY > 0.0 then 1.0 + ZoomSpeed else 1.0 - ZoomSpeed
  }

  /** `camera.position.multiplyScalar(factor)`: a radial move that keeps the
      camera's orientation. */
  function Zoom(p: Pose, deltaY: real): (r: Pose)
    ensures r.lookAt == p.lookAt
    ensures deltaY > 0.0 ==> r.position == Scale(p.position, 1.1)
    ensures deltaY <= 0.0 ==> r.position == Scale(p.position, 0.9)
  {
    p.(position := Scale(p.position, ZoomFactor(deltaY)))
  }

  /** `n` wheel ticks in the same direction. */
  function ZoomTicks(p: Pose, deltaY: real, n: nat): Pose
  {
    if n == 0 then p else Zoom(ZoomTicks(p, deltaY, n - 1), deltaY)
  }

  function Pow(f: real, n: nat): real
  {
    if n == 0 then 1.0 else f * Pow(f, n - 1)
  }

  /** Zoom is unclamped: `n` ticks scale the camera position by the factor
      to the n-th power, and leave the orientation alone. */
  lemma {:induction false} ZoomTicksScale(p: Pose, deltaY: real, n: nat)
    ensures ZoomTicks(p, deltaY, n) == p.(position := Scale(p.position, Pow(ZoomFactor(deltaY), n)))
  {
    if n > 0 {
      ZoomTicksScale(p, deltaY, n - 1);
      ScaleTwice(p.position, Pow(ZoomFactor(deltaY), n - 1), ZoomFactor(deltaY));
    }
  }

  /** Scaling by `g` and then by `f` is scaling by their product. */
  lemma ScaleTwice(v: Vec3, g: real, f: real)
    ensures Scale(Scale(v, g), f) == Scale(v, f * g)
  {
    assert v.x * g * f == v.x * (f * g);
    assert v.y * g * f == v.y * (f * g);
    assert v.z * g * f == v.z * (f * g);
  }

  /** Zooming out one tick and back in one tick does not return the camera:
      it ends at 0.99 of its distance. */
  lemma ZoomOutInDrifts(p: Pose)
    ensures Zoom(Zoom(p, 1.0), -1.0) == p.(position := Scale(p.position, 0.99))
  {
    var v := p.position;
    assert v.x * 1.1 * 0.9 == v.x * 0.99;
    assert v.y * 1.1 * 0.9 == v.y * 0.99;
    assert v.z * 1.1 * 0.9 == v.z * 0.99;
  }

  /** Navigation standoff: 200 for the star, 100 for every other body. */
  function Standoff(d: UserData): (r: real)
    ensures r == 200.0 || r == 100.0
    ensures r == 200.0 <==> IsStar(d)
  {
    if IsStar(d) then 200.0 else 100.0
  }

  /** The standoff as the code computes it, with the exact `'star'` test. */
  function StandoffAsWritten(d: UserData): (r: real)
    ensures r == 200.0 || r == 100.0
    ensures r == 200.0 <==> IsStarAsWritten(d)
  {
    if IsStarAsWritten(d) then 200.0 else 100.0
  }

  /** `direction.multiplyScalar(-distance).add(objectPosition)` with
      `direction = normalize(objectPosition)`, Three.js's `normalize`
      being the parameter. */
  function PlacementAsWritten(target: Vec3, distance: real, normalize: Vec3 -> Vec3): (r: Vec3)
    ensures Sub(r, target) == Scale(normalize(target), -distance)
  {
    Add(Scale(normalize(target), -distance), target)
  }

  /** Three.js normalizes the zero vector to the zero vector, so for a body
      at the world origin the pose the code computes puts the camera on
      the body itself, whatever the standoff. */
  lemma CameraInsideTargetAsWritten(distance: real, normalize: Vec3 -> Vec3)
    requires normalize(Origin) == Origin
    ensures PlacementAsWritten(Origin, distance, normalize) == Origin
    ensures Norm2(Sub(PlacementAsWritten(Origin, distance, normalize), Origin)) == 0.0
  {
    assert 0.0 * -distance == 0.0;
    assert Scale(Origin, -distance) == Origin;
    assert Sub(Origin, Origin) == Origin;
  }

  /** The line the camera backs off along: away from the origin, and for a
      body at the origin the initial line of sight. */
  function Aim(target: Vec3): (r: Vec3)
    ensures r != Origin
    ensures target != Origin ==> r == target
  {
    if target == Origin then Sub(Origin, InitialPosition) else target
  }

  /** The intended camera position: `distance` back from the target along
      the normalized aim. */
  function Placement(target: Vec3, distance: real, normalize: Vec3 -> Vec3): (r: Vec3)
    ensures Sub(r, target) == Scale(normalize(Aim(target)), -distance)
  {
    Add(Scale(normalize(Aim(target)), -distance), target)
  }

  /** Away from the origin the intended pose is the one the code computes. */
  lemma PlacementAgreesOffOrigin(target: Vec3, distance: real, normalize: Vec3 -> Vec3)
    requires target != Origin
    ensures Placement(target, distance, normalize) == PlacementAsWritten(target, distance, normalize)
  {
  }

  /** With a unit aim, the intended pose is exactly the standoff away from
      the target (squared distances, to stay clear of square roots). */
  lemma PlacementKeepsStandoff(target: Vec3, distance: real, normalize: Vec3 -> Vec3)
    requires Norm2(normalize(Aim(target))) == 1.0
    ensures Norm2(Sub(Placement(target, distance, normalize), target)) == distance * distance
  {
    var u := normalize(Aim(target));
    var off := Sub(Placement(target, distance, normalize), target);
    assert off == Scale(u, -distance);
    calc {
      Norm2(off);
      (u.x * -distance) * (u.x * -distance) + (u.y * -distance) * (u.y * -distance) + (u.z * -distance) * (u.z * -distance);
      (u.x * u.x + u.y * u.y + u.z * u.z) * (distance * distance);
      distance * distance;
    }
  }

  /** The part of the interaction state `resetView` touches. */
  datatype View = View(camera: Option<Pose>, rotX: real, rotY: real, selected: Option<UserData>)

  /** `resetView`: with a camera, the initial pose, no rotation and no
      selection; without one, nothing changes. */
  function Reset(v: View): (r: View)
    ensures v.camera.None? ==> r == v
    ensures v.camera.Some? ==> r.camera == Some(InitialPose) && r.rotX == 0.0 && r.rotY == 0.0 && r.selected.None?
  {
    if v.camera.None? then v else View(Some(InitialPose), 0.0, 0.0, None)
  }

  /** Resetting twice is resetting once, and once a camera exists the
      outcome does not depend on what happened before. */
  lemma ResetIdempotent(v: View, w: View)
    ensures Reset(Reset(v)) == Reset(v)
    ensures v.camera.Some? && w.camera.Some? ==> Reset(v) == Reset(w)
  {
  }
}
