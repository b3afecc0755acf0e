/** The registry update `animate` performs on every frame: the star's spin,
    the orbital motion of the bodies that orbit, and the scene rotation
    taken over from the drag accumulator. */
module Frame {
  import opened Scene

  /** `rotation.y` added to an orbiting body per frame. */
  const OrbitSpin: real := 0.01

  /** `rotation.y` added to the star per frame. */
  const StarSpin: real := 0.001

  /** The position in the registry of the first body whose type is the
      star's, compared case-insensitively. */
  function FirstStar(registry: seq<UserData>): (r: Option<nat>)
    ensures r.Some? ==> r.value < |registry| && IsStar(registry[r.value])
    ensures r.Some? ==> forall j :: 0 <= j < r.value ==> !IsStar(registry[j])
    ensures r.None? ==> forall j :: 0 <= j < |registry| ==> !IsStar(registry[j])
  {
    if registry == [] then None
    else if IsStar(registry[0]) then Some(0)
    else match FirstStar(registry[1..])
      case None => None
      case Some(k) => Some(k + 1)
  }

  /** The `find` of `animate` as written, with the exact `'star'` test. */
  function FirstStarAsWritten(registry: seq<UserData>): (r: Option<nat>)
    ensures r.Some? ==> r.value < |registry| && IsStarAsWritten(registry[r.value])
    ensures r.Some? ==> forall j :: 0 <= j < r.value ==> !IsStarAsWritten(registry[j])
    ensures r.None? ==> forall j :: 0 <= j < |registry| ==> !IsStarAsWritten(registry[j])
  {
    if registry == [] then None
    else if IsStarAsWritten(registry[0]) then Some(0)
    else match FirstStarAsWritten(registry[1..])
      case None => None
      case Some(k) => Some(k + 1)
  }

  /** A choice of the node that gets the star's spin: none, or a
      registered body. */
  predicate StarChoice(bodies: seq<nat>, star: Option<nat>)
  {
    star.None? || star.value in bodies
  }

  /** The node `animate` spins as the code is written: the first registered
      body whose type is exactly `'star'`. */
  function StarNodeAsWritten(nodes: seq<SceneNode>, bodies: seq<nat>): (r: Option<nat>)
    requires Registered(nodes, bodies)
    ensures StarChoice(bodies, r)
    ensures r.Some? ==> IsStarAsWritten(nodes[r.value].data)
    ensures r.None? ==> forall k :: 0 <= k < |bodies| ==> !IsStarAsWritten(nodes[bodies[k]].data)
  {
    var reg := RegistryOf(nodes, bodies);
    match FirstStarAsWritten(reg)
    case None => None
    case Some(k) => assert reg[k] == nodes[bodies[k]].data; Some(bodies[k])
  }

  /** The node the star's spin is intended for: the first registered body
      whose type is the star's, compared case-insensitively. */
  function StarNode(nodes: seq<SceneNode>, bodies: seq<nat>): (r: Option<nat>)
    requires Registered(nodes, bodies)
    ensures StarChoice(bodies, r)
    ensures r.Some? ==> IsStar(nodes[r.value].data)
    ensures r.None? ==> forall k :: 0 <= k < |bodies| ==> !IsStar(nodes[bodies[k]].data)
  {
    var reg := RegistryOf(nodes, bodies);
    match FirstStar(reg)
    case None => None
    case Some(k) => assert reg[k] == nodes[bodies[k]].data; Some(bodies[k])
  }

  function Spin(n: SceneNode, angle: real): SceneNode
  {
    n.(rotation := n.rotation.(y := n.rotation.y + angle))
  }

  /** The angle of a body on orbit `o` after `t` seconds. */
  function OrbitAngle(o: Orbit, t: real): real
  {
    o.startAngle + t * o.speed
  }

  /** The point of orbit `o` at time `t`, at height `y`. `cos` and `sin`
      stand for `Math.cos` and `Math.sin`. */
  function OrbitPoint(o: Orbit, t: real, y: real, cos: real -> real, sin: real -> real): Vec3
  {
    var a := OrbitAngle(o, t);
    Vec3(cos(a) * o.radius, y, sin(a) * o.radius)
  }

  /** One orbiting body's frame update: its position on the orbit circle at
      time `t` (height kept), and one step of spin. */
  function Advance(n: SceneNode, t: real, cos: real -> real, sin: real -> real): (r: SceneNode)
    requires n.data.orbit.Some?
    ensures r.data == n.data && r.parent == n.parent && r.radius == n.radius && r.raycastable == n.raycastable
    ensures r.position.y == n.position.y
    ensures r.rotation == n.rotation.(y := n.rotation.y + OrbitSpin)
  {
    Spin(n.(position := OrbitPoint(n.data.orbit.value, t, n.position.y, cos, sin)), OrbitSpin)
  }

  /** The nodes after the spin of the chosen star node, if any. */
  function SpinStar(nodes: seq<SceneNode>, bodies: seq<nat>, star: Option<nat>): (r: seq<SceneNode>)
    requires Registered(nodes, bodies) && StarChoice(bodies, star)
    ensures |r| == |nodes|
    ensures forall i :: 0 <= i < |nodes| ==> r[i].data == nodes[i].data
    ensures forall i :: 0 <= i < |nodes| && star != Some(i) ==> r[i] == nodes[i]
    ensures star.Some? ==> star.value < |nodes| && r[star.value] == Spin(nodes[star.value], StarSpin)
  {
    match star
    case None => nodes
    case Some(s) => nodes[s := Spin(nodes[s], StarSpin)]
  }

  /** The nodes after the orbit loop over the registry. */
  function MoveOrbits(nodes: seq<SceneNode>, bodies: seq<nat>, t: real, cos: real -> real, sin: real -> real): (r: seq<SceneNode>)
    ensures |r| == |nodes|
    ensures forall i :: 0 <= i < |nodes| ==> r[i].data == nodes[i].data
  {
    seq(|nodes|, i requires 0 <= i < |nodes| =>
      if i in bodies && Orbits(nodes[i].data) then Advance(nodes[i], t, cos, sin) else nodes[i])
  }

  /** The `forEach` over the registry in `animate`: each orbiting body, in
      registry order, is put on its circle and spun. Registry entries are
      distinct, so visiting them one at a time gives the pointwise result. */
  method OrbitLoop(nodes: seq<SceneNode>, bodies: seq<nat>, t: real, cos: real -> real, sin: real -> real)
    returns (ns: seq<SceneNode>)
    requires Registered(nodes, bodies)
    ensures ns == MoveOrbits(nodes, bodies, t, cos, sin)
  {
    ns := nodes;
    for k := 0 to |bodies|
      invariant |ns| == |nodes|
      invariant forall i :: 0 <= i < |ns| ==>
                  ns[i] == if i in bodies[..k] && Orbits(nodes[i].data) then Advance(nodes[i], t, cos, sin) else nodes[i]
    {
      var b := bodies[k];
      assert b !in bodies[..k];
      assert forall i :: i in bodies[..k + 1] <==> i in bodies[..k] || i == b;
      if Orbits(ns[b].data) {
        ns := ns[b := Advance(ns[b], t, cos, sin)];
      }
    }
    assert bodies[..|bodies|] == bodies;
  }

  /** The nodes after one frame at elapsed time `t`, with the drag
      accumulator at (`rotX`, `rotY`), where `star` is the node the star's
      spin goes to. A frame changes transforms only: the arena, its links,
      the `userData` and the flags are kept, so the registry, the star the
      registry designates and the pick resolution are the same afterwards. */
  function AfterFrame(nodes: seq<SceneNode>, bodies: seq<nat>, star: Option<nat>, t: real, cos: real -> real,
                      sin: real -> real, rotX: real, rotY: real): (r: seq<SceneNode>)
    requires Registered(nodes, bodies) && StarChoice(bodies, star)
    ensures |r| == |nodes|
    ensures forall i :: 0 <= i < |nodes| ==>
              r[i].data == nodes[i].data && r[i].parent == nodes[i].parent &&
              r[i].radius == nodes[i].radius && r[i].raycastable == nodes[i].raycastable
    ensures Registered(r, bodies) && RegistryOf(r, bodies) == RegistryOf(nodes, bodies)
    ensures ParentsFirst(r) <==> ParentsFirst(nodes)
  {
    var moved := MoveOrbits(SpinStar(nodes, bodies, star), bodies, t, cos, sin);
    var r := moved[0 := moved[0].(rotation := moved[0].rotation.(x := rotX, y := rotY))];
    assert RegistryOf(r, bodies) == RegistryOf(nodes, bodies);
    r
  }

  /** A frame designates the same star afterwards, by either test: the
      registry's `userData` is unchanged. */
  lemma FrameKeepsStar(nodes: seq<SceneNode>, bodies: seq<nat>, star: Option<nat>, t: real,
                       cos: real -> real, sin: real -> real, rotX: real, rotY: real)
    requires Registered(nodes, bodies) && StarChoice(bodies, star)
    ensures var r := AfterFrame(nodes, bodies, star, t, cos, sin, rotX, rotY);
            StarNodeAsWritten(r, bodies) == StarNodeAsWritten(nodes, bodies) && StarNode(r, bodies) == StarNode(nodes, bodies)
  {
  }

  /** The scene root takes the drag accumulator as its rotation about x and
      y; nothing else about it changes. */
  lemma FrameSetsSceneRotation(nodes: seq<SceneNode>, bodies: seq<nat>, star: Option<nat>, t: real,
                               cos: real -> real, sin: real -> real, rotX: real, rotY: real)
    requires Registered(nodes, bodies) && StarChoice(bodies, star)
    ensures var root := AfterFrame(nodes, bodies, star, t, cos, sin, rotX, rotY)[0];
            root == nodes[0].(rotation := Vec3(rotX, rotY, nodes[0].rotation.z))
  {
    assert 0 !in bodies;
  }

  /** A node other than the root that neither orbits nor is the star node is
      left exactly as it was. */
  lemma FrameLeavesOthersAlone(nodes: seq<SceneNode>, bodies: seq<nat>, star: Option<nat>, t: real,
                               cos: real -> real, sin: real -> real, rotX: real, rotY: real, i: nat)
    requires Registered(nodes, bodies) && StarChoice(bodies, star) && 0 < i < |nodes|
    requires star != Some(i)
    requires i !in bodies || !Orbits(nodes[i].data)
    ensures AfterFrame(nodes, bodies, star, t, cos, sin, rotX, rotY)[i] == nodes[i]
  {
  }

  /** A registered body that orbits is put on its orbit circle at angle
      `startAngle + t * orbitSpeed`, keeps its height, and turns by one
      orbit spin (and one star spin as well when it is the star node). */
  lemma FrameMovesOrbits(nodes: seq<SceneNode>, bodies: seq<nat>, star: Option<nat>, t: real,
                         cos: real -> real, sin: real -> real, rotX: real, rotY: real, i: nat)
    requires Registered(nodes, bodies) && StarChoice(bodies, star) && i in bodies && Orbits(nodes[i].data)
    ensures var n := nodes[i];
            var r := AfterFrame(nodes, bodies, star, t, cos, sin, rotX, rotY)[i];
            && r.position == OrbitPoint(n.data.orbit.value, t, n.position.y, cos, sin)
            && r.rotation.x == n.rotation.x && r.rotation.z == n.rotation.z
            && r.rotation.y == n.rotation.y + OrbitSpin + (if star == Some(i) then StarSpin else 0.0)
  {
    var k :| 0 <= k < |bodies| && bodies[k] == i;
    var spun := SpinStar(nodes, bodies, star);
    var moved := MoveOrbits(spun, bodies, t, cos, sin);
    assert spun[i] == if star == Some(i) then Spin(nodes[i], StarSpin) else nodes[i];
    assert moved[i] == Advance(spun[i], t, cos, sin);
    assert AfterFrame(nodes, bodies, star, t, cos, sin, rotX, rotY)[i] == moved[i];
  }

  /** The star node (when it does not orbit) turns by one star spin and
      stays where it is. */
  lemma FrameSpinsStar(nodes: seq<SceneNode>, bodies: seq<nat>, star: Option<nat>, t: real,
                       cos: real -> real, sin: real -> real, rotX: real, rotY: real)
    requires Registered(nodes, bodies) && StarChoice(bodies, star)
    requires star.Some? && !Orbits(nodes[star.value].data)
    ensures var s := star.value;
            AfterFrame(nodes, bodies, star, t, cos, sin, rotX, rotY)[s] == Spin(nodes[s], StarSpin)
  {
    assert star.value in bodies;
  }

  /** Positions do not accumulate: the position of an orbiting body after a
      frame at `t2` is the same whether or not a frame at `t1` came before. */
  lemma OrbitPositionIsAbsolute(nodes: seq<SceneNode>, bodies: seq<nat>, star: Option<nat>, t1: real, t2: real,
                                cos: real -> real, sin: real -> real, rotX: real, rotY: real, i: nat)
    requires Registered(nodes, bodies) && StarChoice(bodies, star) && i in bodies && Orbits(nodes[i].data)
    ensures var once := AfterFrame(nodes, bodies, star, t1, cos, sin, rotX, rotY);
            AfterFrame(once, bodies, star, t2, cos, sin, rotX, rotY)[i].position
              == AfterFrame(nodes, bodies, star, t2, cos, sin, rotX, rotY)[i].position
  {
    var once := AfterFrame(nodes, bodies, star, t1, cos, sin, rotX, rotY);
    FrameMovesOrbits(nodes, bodies, star, t1, cos, sin, rotX, rotY, i);
    FrameMovesOrbits(once, bodies, star, t2, cos, sin, rotX, rotY, i);
    FrameMovesOrbits(nodes, bodies, star, t2, cos, sin, rotX, rotY, i);
  }

  /** With `cos` and `sin` on the unit circle at the body's angle, an
      orbiting body lies at its orbit radius from the star's axis. */
  lemma OrbitOnCircle(nodes: seq<SceneNode>, bodies: seq<nat>, star: Option<nat>, t: real,
                      cos: real -> real, sin: real -> real, rotX: real, rotY: real, i: nat)
    requires Registered(nodes, bodies) && StarChoice(bodies, star) && i in bodies && Orbits(nodes[i].data)
    requires var o := nodes[i].data.orbit.value;
             var a := OrbitAngle(o, t);
             cos(a) * cos(a) + sin(a) * sin(a) == 1.0
    ensures var p, o := AfterFrame(nodes, bodies, star, t, cos, sin, rotX, rotY)[i].position, nodes[i].data.orbit.value;
            p.x * p.x + p.z * p.z == o.radius * o.radius
  {
    var o, y := nodes[i].data.orbit.value, nodes[i].position.y;
    FrameMovesOrbits(nodes, bodies, star, t, cos, sin, rotX, rotY, i);
    assert AfterFrame(nodes, bodies, star, t, cos, sin, rotX, rotY)[i].position == OrbitPoint(o, t, y, cos, sin);
    OrbitPointOnCircle(o, t, y, cos, sin);
  }

  /** A point of an orbit is at the orbit radius from the axis, when `cos`
      and `sin` are on the unit circle at its angle. */
  lemma OrbitPointOnCircle(o: Orbit, t: real, y: real, cos: real -> real, sin: real -> real)
    requires var a := OrbitAngle(o, t); cos(a) * cos(a) + sin(a) * sin(a) == 1.0
    ensures var p := OrbitPoint(o, t, y, cos, sin); p.x * p.x + p.z * p.z == o.radius * o.radius
  {
    var a := OrbitAngle(o, t);
    var c, s, d := cos(a), sin(a), o.radius;
    assert (c * d) * (c * d) + (s * d) * (s * d) == (c * c + s * s) * (d * d);
  }

  /** Frames at the elapsed times `ts`, in order, as `animate` runs them:
      each frame spins the star node the code's `find` designates, which no
      frame changes (`FrameKeepsStar`). */
  function Frames(nodes: seq<SceneNode>, bodies: seq<nat>, ts: seq<real>, cos: real -> real, sin: real -> real,
                  rotX: real, rotY: real): (r: seq<SceneNode>)
    requires Registered(nodes, bodies)
    ensures Registered(r, bodies) && RegistryOf(r, bodies) == RegistryOf(nodes, bodies)
    decreases |ts|
  {
    if ts == [] then nodes
    else Frames(AfterFrame(nodes, bodies, StarNodeAsWritten(nodes, bodies), ts[0], cos, sin, rotX, rotY),
                bodies, ts[1..], cos, sin, rotX, rotY)
  }

  /** Spin accumulates: after `n` frames an orbiting body that is not the
      star node has turned by `n` orbit spins, whatever the frame times. */
  lemma {:induction false} FramesSpinOrbiting(nodes: seq<SceneNode>, bodies: seq<nat>, ts: seq<real>,
                                              cos: real -> real, sin: real -> real, rotX: real, rotY: real, i: nat)
    requires Registered(nodes, bodies) && i in bodies && Orbits(nodes[i].data)
    requires StarNodeAsWritten(nodes, bodies) != Some(i)
    ensures Frames(nodes, bodies, ts, cos, sin, rotX, rotY)[i].rotation.y
              == nodes[i].rotation.y + |ts| as real * OrbitSpin
    decreases |ts|
  {
    if ts != [] {
      var star := StarNodeAsWritten(nodes, bodies);
      var next := AfterFrame(nodes, bodies, star, ts[0], cos, sin, rotX, rotY);
      FrameMovesOrbits(nodes, bodies, star, ts[0], cos, sin, rotX, rotY, i);
      FrameKeepsStar(nodes, bodies, star, ts[0], cos, sin, rotX, rotY);
      FramesSpinOrbiting(next, bodies, ts[1..], cos, sin, rotX, rotY, i);
    }
  }
}
