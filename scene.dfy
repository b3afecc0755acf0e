/** The scene graph as an arena of nodes, and the pick resolution that
    turns the raycaster's nearest hit into the named body that owns it. */
module Scene {
  import opened JsText

  datatype Option<T> = None | Some(value: T)

  datatype Vec3 = Vec3(x: real, y: real, z: real)

  const Origin := Vec3(0.0, 0.0, 0.0)

  /** The orbit fields of a body's `userData`. */
  datatype Orbit = Orbit(radius: real, speed: real, startAngle: real)

  /** A scene object's `userData`; the scene root and the decorations
      (glows, atmosphere, rings) carry an empty record. */
  datatype UserData = UserData(
    kind: Option<string>,          // `type`
    name: Option<string>,
    orbit: Option<Orbit>,          // `orbitRadius`, `orbitSpeed`, `startAngle`
    originalName: Option<string>)  // the feed's raw name, on feed bodies only

  const NoData := UserData(None, None, None, None)

  /** One scene object: its parent (by index), its `userData`, its local
      transform, its geometry radius and whether its `raycastable` flag is
      left as it is (true) or set to false. */
  datatype SceneNode = SceneNode(
    parent: Option<nat>,
    data: UserData,
    position: Vec3,
    rotation: Vec3,
    radius: real,
    raycastable: bool)

  /** `userData.name` is truthy: present and not the empty string. */
  predicate Named(d: UserData)
  {
    d.name.Some? && d.name.value != ""
  }

  /** Nodes are stored in creation order and every parent is created before
      its children, so parent indices point strictly backwards. This keeps
      the parent relation acyclic. */
  predicate ParentsFirst(nodes: seq<SceneNode>)
  {
    forall i :: 0 <= i < |nodes| && nodes[i].parent.Some? ==> nodes[i].parent.value < i
  }

  /** The body registry as node indices: there is a scene root at index 0,
      every registered body is a node other than the root, and no node is
      registered twice. */
  predicate Registered(nodes: seq<SceneNode>, bodies: seq<nat>)
  {
    && |nodes| > 0
    && (forall k :: 0 <= k < |bodies| ==> 0 < bodies[k] < |nodes|)
    && (forall j, k :: 0 <= j < k < |bodies| ==> bodies[j] != bodies[k])
  }

  /** The `userData` of the registered bodies, in registration order. */
  function RegistryOf(nodes: seq<SceneNode>, bodies: seq<nat>): (r: seq<UserData>)
    requires forall k :: 0 <= k < |bodies| ==> bodies[k] < |nodes|
    ensures |r| == |bodies|
    ensures forall k :: 0 <= k < |bodies| ==> r[k] == nodes[bodies[k]].data
  {
    seq(|bodies|, k requires 0 <= k < |bodies| => nodes[bodies[k]].data)
  }

  /** The indices `base`, `base + 1`, ..., `base + count - 1`. */
  function Indices(base: nat, count: nat): (r: seq<nat>)
    ensures |r| == count && forall k :: 0 <= k < count ==> r[k] == base + k
  {
    seq(count, k requires 0 <= k < count => base + k)
  }

  /** Adding nodes whose parents already exist, and registering each of
      them, keeps the arena acyclic and the registry well formed, and
      extends the registry by exactly the new nodes' `userData`, in order. */
  lemma RegisterAll(nodes: seq<SceneNode>, bodies: seq<nat>, added: seq<SceneNode>)
    requires ParentsFirst(nodes) && Registered(nodes, bodies)
    requires forall k :: 0 <= k < |added| ==> added[k].parent.Some? && added[k].parent.value < |nodes|
    ensures var ns, bs := nodes + added, bodies + Indices(|nodes|, |added|);
            && ParentsFirst(ns) && Registered(ns, bs)
            && RegistryOf(ns, bs) == RegistryOf(nodes, bodies) + seq(|added|, k requires 0 <= k < |added| => added[k].data)
  {
    var ns, bs := nodes + added, bodies + Indices(|nodes|, |added|);
    assert forall i :: 0 <= i < |nodes| ==> ns[i] == nodes[i];
    assert forall k :: 0 <= k < |added| ==> ns[|nodes| + k] == added[k];
    assert forall j :: 0 <= j < |bodies| ==> bs[j] == bodies[j];
    assert forall j :: |bodies| <= j < |bs| ==> bs[j] == |nodes| + (j - |bodies|);
  }

  /** The chain from node `i` to its root: `i`, its parent, its parent's
      parent, and so on. Every step goes to the parent, indices strictly
      decrease (no node repeats), and the chain ends at a node without a parent. */
  function AncestorsOrSelf(nodes: seq<SceneNode>, i: nat): (c: seq<nat>)
    requires ParentsFirst(nodes) && i < |nodes|
    ensures |c| > 0 && c[0] == i
    ensures forall k :: 0 <= k < |c| ==> c[k] < |nodes|
    ensures forall k :: 0 <= k < |c| - 1 ==> nodes[c[k]].parent == Some(c[k + 1]) && c[k + 1] < c[k]
    ensures nodes[c[|c| - 1]].parent.None?
    decreases i
  {
    match nodes[i].parent
    case None => [i]
    case Some(p) => [i] + AncestorsOrSelf(nodes, p)
  }

  /** The position in `c` of its first named node, or `|c|` if none is named. */
  function FirstNamed(nodes: seq<SceneNode>, c: seq<nat>): (k: nat)
    requires forall j :: 0 <= j < |c| ==> c[j] < |nodes|
    ensures k <= |c|
    ensures forall j :: 0 <= j < k ==> !Named(nodes[c[j]].data)
    ensures k < |c| ==> Named(nodes[c[k]].data)
  {
    if c == [] then 0
    else if Named(nodes[c[0]].data) then 0
    else 1 + FirstNamed(nodes, c[1..])
  }

  /** The node the walk of `handleClick` stops at: climb while the node has
      a parent and no name. It ends on the chain from `i` to the root, at a
      node that is named or has no parent. */
  function Owner(nodes: seq<SceneNode>, i: nat): (o: nat)
    requires ParentsFirst(nodes) && i < |nodes|
    ensures o <= i && o in AncestorsOrSelf(nodes, i)
    ensures Named(nodes[o].data) || nodes[o].parent.None?
    decreases i
  {
    if nodes[i].parent.Some? && !Named(nodes[i].data) then Owner(nodes, nodes[i].parent.value)
    else i
  }

  /** The walk stops at the nearest named node on the chain from `i` up to
      the root; when no node on the chain is named, it stops at the root. */
  lemma {:induction false} OwnerIsNearestNamed(nodes: seq<SceneNode>, i: nat)
    requires ParentsFirst(nodes) && i < |nodes|
    ensures var c := AncestorsOrSelf(nodes, i);
            var k := FirstNamed(nodes, c);
            Owner(nodes, i) == if k < |c| then c[k] else c[|c| - 1]
    decreases i
  {
    var c := AncestorsOrSelf(nodes, i);
    if nodes[i].parent.Some? && !Named(nodes[i].data) {
      var p := nodes[i].parent.value;
      OwnerIsNearestNamed(nodes, p);
      assert c[1..] == AncestorsOrSelf(nodes, p);
      assert FirstNamed(nodes, c) == 1 + FirstNamed(nodes, c[1..]);
    }
  }

  predicate HitsInScene(nodes: seq<SceneNode>, hits: seq<nat>)
  {
    forall k :: 0 <= k < |hits| ==> hits[k] < |nodes|
  }

  /** The node a click whose intersections, nearest first, are `hits`
      selects, as the code is written: the walk starts from the nearest hit,
      whatever its `raycastable` flag, and a selection is made only if the
      walk ends on a named node. */
  function ResolveAsWritten(nodes: seq<SceneNode>, hits: seq<nat>): (r: Option<nat>)
    requires ParentsFirst(nodes) && HitsInScene(nodes, hits)
    ensures hits == [] ==> r.None?
    ensures r.Some? ==> hits != [] && r.value < |nodes| && Named(nodes[r.value].data) && r.value in AncestorsOrSelf(nodes, hits[0])
  {
    if hits == [] then None
    else
      var o := Owner(nodes, hits[0]);
      if Named(nodes[o].data) then Some(o) else None
  }

  /** The hits that remain when objects whose `raycastable` flag is false
      are excluded from the intersection test, in the same order
      (`RaycastableHitsAppend`). */
  function RaycastableHits(nodes: seq<SceneNode>, hits: seq<nat>): (r: seq<nat>)
    requires HitsInScene(nodes, hits)
    ensures HitsInScene(nodes, r)
    ensures forall k :: 0 <= k < |r| ==> nodes[r[k]].raycastable && r[k] in hits
    ensures forall h :: h in hits && nodes[h].raycastable ==> h in r
  {
    if hits == [] then []
    else if nodes[hits[0]].raycastable then [hits[0]] + RaycastableHits(nodes, hits[1..])
    else RaycastableHits(nodes, hits[1..])
  }

  /** Filtering respects order: the hits of a concatenation are the hits
      of each part, one after the other. */
  lemma {:induction false} RaycastableHitsAppend(nodes: seq<SceneNode>, a: seq<nat>, b: seq<nat>)
    requires HitsInScene(nodes, a) && HitsInScene(nodes, b)
    ensures HitsInScene(nodes, a + b)
    ensures RaycastableHits(nodes, a + b) == RaycastableHits(nodes, a) + RaycastableHits(nodes, b)
  {
    assert HitsInScene(nodes, a + b) by {
      forall k | 0 <= k < |a + b| ensures (a + b)[k] < |nodes| {
        if k >= |a| { assert (a + b)[k] == b[k - |a|]; }
      }
    }
    if a != [] {
      assert (a + b)[1..] == a[1..] + b;
      RaycastableHitsAppend(nodes, a[1..], b);
    } else {
      assert a + b == b;
    }
  }

  /** The nearest raycastable hit is the first raycastable entry of the hit
      list: everything before it is a decoration marked non-raycastable. */
  lemma {:induction false} FirstRaycastableHit(nodes: seq<SceneNode>, hits: seq<nat>)
    requires HitsInScene(nodes, hits)
    requires RaycastableHits(nodes, hits) != []
    ensures exists k :: 0 <= k < |hits| && hits[k] == RaycastableHits(nodes, hits)[0] &&
              forall j :: 0 <= j < k ==> !nodes[hits[j]].raycastable
  {
    if !nodes[hits[0]].raycastable {
      FirstRaycastableHit(nodes, hits[1..]);
      var k :| 0 <= k < |hits[1..]| && hits[1..][k] == RaycastableHits(nodes, hits[1..])[0] &&
                forall j :: 0 <= j < k ==> !nodes[hits[1..][j]].raycastable;
      assert hits[k + 1] == RaycastableHits(nodes, hits)[0];
      forall j | 0 <= j < k + 1 ensures !nodes[hits[j]].raycastable {
        if j > 0 { assert hits[j] == hits[1..][j - 1]; }
      }
    } else {
      assert hits[0] == RaycastableHits(nodes, hits)[0];
    }
  }

  /** The node a click selects as the `raycastable = false` markings intend:
      decorations so marked are not hit at all, and the nearest remaining
      hit is resolved by the same walk. */
  function ResolveIntended(nodes: seq<SceneNode>, hits: seq<nat>): (r: Option<nat>)
    requires ParentsFirst(nodes) && HitsInScene(nodes, hits)
    ensures r.Some? ==> r.value < |nodes| && Named(nodes[r.value].data)
    ensures hits != [] && nodes[hits[0]].raycastable ==> r == ResolveAsWritten(nodes, hits)
  {
    ResolveAsWritten(nodes, RaycastableHits(nodes, hits))
  }

  /** A click with no hit selects nothing; otherwise it selects the nearest
      named ancestor-or-self of the nearest hit, and nothing when that chain
      has no named node. */
  lemma ResolveFindsNearestNamed(nodes: seq<SceneNode>, hits: seq<nat>)
    requires ParentsFirst(nodes) && HitsInScene(nodes, hits)
    ensures hits == [] ==> ResolveAsWritten(nodes, hits).None?
    ensures hits != [] ==>
              var c := AncestorsOrSelf(nodes, hits[0]);
              var k := FirstNamed(nodes, c);
              ResolveAsWritten(nodes, hits) == if k < |c| then Some(c[k]) else None
  {
    if hits != [] {
      OwnerIsNearestNamed(nodes, hits[0]);
    }
  }

  /** When every hit is a decoration marked non-raycastable, the intended
      pick selects nothing. */
  lemma DecorationsAloneSelectNothing(nodes: seq<SceneNode>, hits: seq<nat>)
    requires ParentsFirst(nodes) && HitsInScene(nodes, hits)
    requires forall k :: 0 <= k < |hits| ==> !nodes[hits[k]].raycastable
    ensures ResolveIntended(nodes, hits).None?
  {
  }

  /** `userData.type === 'star'`, the test the code applies. */
  predicate IsStarAsWritten(d: UserData)
  {
    d.kind == Some("star")
  }

  /** The star test compared case-insensitively, which also accepts the
      `'Star'` type the Sun's record ends up with. */
  predicate IsStar(d: UserData)
  {
    d.kind.Some? && ToLower(d.kind.value) == "star"
  }

  /** `userData.orbitRadius` is truthy. */
  predicate Orbits(d: UserData)
  {
    d.orbit.Some? && d.orbit.value.radius != 0.0
  }
}
