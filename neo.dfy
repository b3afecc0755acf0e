/** The bodies the near-Earth-object feed adds to the scene: one node per
    feed record, with a cleaned, searchable name, a clamped size and a
    place on a ring around the star. */
module Neo {
  import opened Scene
  import opened JsText

  /** The fields of one feed record the scene uses: the raw `name` and
      `estimated_diameter.kilometers.estimated_diameter_max`. */
  datatype NeoRecord = NeoRecord(name: string, diameterMax: real)

  const MinSize: real := 2.0
  const MaxSize: real := 10.0

  /** `Math.max(2, Math.min(10, x))`. */
  function Clamp(x: real): (r: real)
    ensures MinSize <= r <= MaxSize
    ensures MinSize <= x <= MaxSize ==> r == x
    ensures x < MinSize ==> r == MinSize
    ensures x > MaxSize ==> r == MaxSize
  {
    var m := if x < MaxSize then x else MaxSize;
    if m > MinSize then m else MinSize
  }

  /** The sphere radius of a feed body: ten scene units per kilometre of
      maximum diameter, clamped. */
  function NeoSize(rec: NeoRecord): (r: real)
    ensures MinSize <= r <= MaxSize
    ensures MinSize <= rec.diameterMax * 10.0 <= MaxSize ==> r == rec.diameterMax * 10.0
  {
    Clamp(rec.diameterMax * 10.0)
  }

  /** Larger objects are never drawn smaller. */
  lemma NeoSizeMonotone(a: NeoRecord, b: NeoRecord)
    requires a.diameterMax <= b.diameterMax
    ensures MinSize <= NeoSize(a) <= NeoSize(b) <= MaxSize
  {
  }

  /** `Math.PI * 2`. */
  const TwoPi: real := 6.283185307179586

  /** The position of the `index`-th of `count` feed bodies: evenly spaced
      angles, a ring distance of 300 plus 200 times the random `u`, and a
      height of 100 times the random `v` less one half. */
  function NeoPosition(index: nat, count: nat, u: real, v: real, cos: real -> real, sin: real -> real): (r: Vec3)
    requires index < count
    ensures 0.0 <= v < 1.0 ==> -50.0 <= r.y < 50.0
  {
    var angle := (index as real / count as real) * TwoPi;
    var distance := 300.0 + u * 200.0;
    Vec3(cos(angle) * distance, (v - 0.5) * 100.0, sin(angle) * distance)
  }

  /** With `Math.random` values in [0, 1) and `cos`, `sin` on the unit
      circle, a feed body lies between 300 and 500 units from the star's
      axis, and within 50 units of the orbital plane. */
  lemma NeoPositionInRing(index: nat, count: nat, u: real, v: real, cos: real -> real, sin: real -> real)
    requires index < count
    requires 0.0 <= u < 1.0 && 0.0 <= v < 1.0
    requires var angle := (index as real / count as real) * TwoPi;
             cos(angle) * cos(angle) + sin(angle) * sin(angle) == 1.0
    ensures var p := NeoPosition(index, count, u, v, cos, sin);
            && 300.0 * 300.0 <= p.x * p.x + p.z * p.z < 500.0 * 500.0
            && -50.0 <= p.y < 50.0
  {
    var angle := (index as real / count as real) * TwoPi;
    var c, s, d := cos(angle), sin(angle), 300.0 + u * 200.0;
    var p := NeoPosition(index, count, u, v, cos, sin);
    assert p.x == c * d && p.z == s * d;
    assert (c * d) * (c * d) + (s * d) * (s * d) == (c * c + s * s) * (d * d);
    assert 300.0 <= d < 500.0;
    assert 300.0 * 300.0 <= d * d by {
      assert 300.0 * 300.0 <= 300.0 * d <= d * d;
    }
    assert d * d < 500.0 * 500.0 by {
      assert u * u <= u;
      assert d * d == 90000.0 + 120000.0 * u + 40000.0 * (u * u);
    }
  }

  /** The `userData` fields a feed body is given: type `'neo'`, the name
      with parentheses removed and trimmed, and the raw name kept as
      `originalName`. */
  function NeoData(rec: NeoRecord): (r: UserData)
    ensures r.originalName == Some(rec.name)
    ensures r.name.Some? && NoParens(r.name.value) && Trimmed(r.name.value)
    ensures !Orbits(r) && !IsStar(r) && !IsStarAsWritten(r)
  {
    assert ToLower("neo") == "neo";
    UserData(Some("neo"), Some(CleanName(rec.name)), None, Some(rec.name))
  }

  /** The node for one feed body: a child of the scene root, raycastable. */
  function NeoNode(rec: NeoRecord, position: Vec3): SceneNode
  {
    SceneNode(Some(0), NeoData(rec), position, Origin, NeoSize(rec), true)
  }

  /** The nodes for one delivery, in feed order; `us` and `vs` are the
      `Math.random` values drawn for each record. */
  function NeoNodes(feed: seq<NeoRecord>, us: seq<real>, vs: seq<real>, cos: real -> real, sin: real -> real): (r: seq<SceneNode>)
    requires |us| == |feed| && |vs| == |feed|
    ensures |r| == |feed|
  {
    seq(|feed|, k requires 0 <= k < |feed| => NeoNode(feed[k], NeoPosition(k, |feed|, us[k], vs[k], cos, sin)))
  }

  /** Every node of a delivery is attached to the scene root, carries its
      record's raw name as `originalName` and a name with no parenthesis and
      no white space at either end, is sized within [2, 10], and is neither
      an orbiting body nor a star, so a frame leaves it where it was put. */
  lemma NeoNodesWellFormed(feed: seq<NeoRecord>, us: seq<real>, vs: seq<real>, cos: real -> real, sin: real -> real, k: nat)
    requires |us| == |feed| && |vs| == |feed| && k < |feed|
    ensures var n := NeoNodes(feed, us, vs, cos, sin)[k];
            && n.parent == Some(0) && n.raycastable
            && n.data.originalName == Some(feed[k].name)
            && n.data.name.Some? && NoParens(n.data.name.value) && Trimmed(n.data.name.value)
            && MinSize <= n.radius <= MaxSize
            && !Orbits(n.data) && !IsStar(n.data) && !IsStarAsWritten(n.data)
  {
    assert ToLower("neo") == "neo";
  }

  /** A feed name that is already clean is kept exactly, so the body can
      be found by it. */
  lemma CleanFeedNameKept(rec: NeoRecord)
    requires NoParens(rec.name) && Trimmed(rec.name)
    ensures NeoData(rec).name == Some(rec.name)
  {
    RemoveParensOfClean(rec.name);
    TrimOfTrimmed(rec.name);
  }

  /** The `userData` the feed bodies get, in feed order. */
  function NeoDataOf(feed: seq<NeoRecord>): (r: seq<UserData>)
    ensures |r| == |feed| && forall k :: 0 <= k < |feed| ==> r[k] == NeoData(feed[k])
  {
    seq(|feed|, k requires 0 <= k < |feed| => NeoData(feed[k]))
  }

  /** The `forEach` of the feed effect: each record's node is added to the
      scene under the root and pushed onto the registry, in feed order, with
      no de-duplication. The arena stays acyclic and the registry gains
      exactly the feed bodies' `userData`, after everything already there. */
  method AppendFeed(nodes: seq<SceneNode>, bodies: seq<nat>, feed: seq<NeoRecord>, us: seq<real>, vs: seq<real>,
                    cos: real -> real, sin: real -> real) returns (ns: seq<SceneNode>, bs: seq<nat>)
    requires ParentsFirst(nodes) && Registered(nodes, bodies)
    requires |us| == |feed| && |vs| == |feed|
    ensures ns == nodes + NeoNodes(feed, us, vs, cos, sin)
    ensures bs == bodies + Indices(|nodes|, |feed|)
    ensures ParentsFirst(ns) && Registered(ns, bs)
    ensures RegistryOf(ns, bs) == RegistryOf(nodes, bodies) + NeoDataOf(feed)
  {
    var added := NeoNodes(feed, us, vs, cos, sin);
    ns, bs := AddEach(nodes, bodies, added);
    RegisterAll(nodes, bodies, added);
    assert seq(|added|, k requires 0 <= k < |added| => added[k].data) == NeoDataOf(feed);
  }

  /** `scene.add(mesh)` then `celestialBodiesRef.current.push(mesh)` for each
      new node in turn: a node goes at the end of the arena and its index at
      the end of the registry. */
  method AddEach(nodes: seq<SceneNode>, bodies: seq<nat>, added: seq<SceneNode>) returns (ns: seq<SceneNode>, bs: seq<nat>)
    ensures ns == nodes + added
    ensures bs == bodies + Indices(|nodes|, |added|)
  {
    ghost var newIndices := Indices(|nodes|, |added|);
    ns, bs := nodes, bodies;
    var k := 0;
    while k < |added|
      invariant 0 <= k <= |added|
      invariant ns == nodes + added[..k] && bs == bodies + newIndices[..k]
      decreases |added| - k
    {
      assert added[..k + 1] == added[..k] + [added[k]];
      assert newIndices[..k + 1] == newIndices[..k] + [newIndices[k]];
      ns := ns + [added[k]];
      bs := bs + [|ns| - 1];
      k := k + 1;
    }
    assert added[..k] == added && newIndices[..k] == newIndices;
  }
}
