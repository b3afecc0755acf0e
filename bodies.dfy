/** The scene the component builds when it mounts: the star with its glow
    shells, the six planets (Earth with its atmosphere, Saturn with its
    rings), and the body registry over them; and what the three defects of
    the code do to that scene. */
module Bodies {
  import opened Scene
  import opened Frame
  import opened Camera
  import opened JsText

  /** `{ key: own, ...entry }`: a key present in the spread entry overrides
      the literal one. */
  function Spread(own: Option<string>, entry: Option<string>): (r: Option<string>)
    ensures entry.Some? ==> r == entry
    ensures entry.None? ==> r == own
  {
    if entry.Some? then entry else own
  }

  /** The `type` of each body's record in the planet database. */
  function DatabaseType(name: string): Option<string>
  {
    if name == "Sun" then Some("Star")
    else if name == "Mercury" || name == "Venus" || name == "Earth" || name == "Mars" then Some("Terrestrial Planet")
    else if name == "Jupiter" || name == "Saturn" then Some("Gas Giant")
    else None
  }

  /** One entry of the planet list: sphere radius, orbit radius and speed. */
  datatype Planet = Planet(name: string, radius: real, distance: real, speed: real)

  const Planets: seq<Planet> := [
    Planet("Mercury", 5.0, 100.0, 0.04),
    Planet("Venus", 12.0, 150.0, 0.015),
    Planet("Earth", 13.0, 200.0, 0.01),
    Planet("Mars", 7.0, 250.0, 0.008),
    Planet("Jupiter", 30.0, 400.0, 0.002),
    Planet("Saturn", 25.0, 500.0, 0.001)]

  /** `Math.PI / 2`. */
  const HalfPi: real := 1.5707963267948966

  const SceneRoot := SceneNode(None, NoData, Origin, Origin, 0.0, true)

  /** The star's `userData`: the literal type `'star'` and then the
      database entry spread over it. */
  const StarData := UserData(Spread(Some("star"), DatabaseType("Sun")), Some("Sun"), None, None)

  const Star := SceneNode(Some(0), StarData, Origin, Origin, 50.0, true)

  /** The `i`-th glow shell (1 to 3) around the star, marked non-raycastable. */
  function Glow(i: nat): SceneNode
  {
    SceneNode(Some(1), NoData, Origin, Origin, 50.0 + i as real * 20.0, false)
  }

  /** A planet's `userData`: literal type `'planet'`, its orbit, and the
      database entry spread over them. */
  function PlanetData(p: Planet, startAngle: real): UserData
  {
    UserData(Spread(Some("planet"), DatabaseType(p.name)), Some(p.name), Some(Orbit(p.distance, p.speed, startAngle)), None)
  }

  /** A planet placed at its start angle on its orbit. */
  function PlanetNode(p: Planet, startAngle: real, cos: real -> real, sin: real -> real): SceneNode
  {
    SceneNode(Some(0), PlanetData(p, startAngle), Vec3(cos(startAngle) * p.distance, 0.0, sin(startAngle) * p.distance),
              Origin, p.radius, true)
  }

  /** Node indices of the bodies in the order they are created. */
  const SunIndex: nat := 1
  const OuterGlowIndex: nat := 4
  const MercuryIndex: nat := 5
  const EarthIndex: nat := 7
  const AtmosphereIndex: nat := 8
  const SaturnIndex: nat := 11
  const RingsIndex: nat := 12

  /** The registry after mounting: the star, then the planets. */
  const InitialBodies: seq<nat> := [1, 5, 6, 7, 9, 10, 11]

  /** The arena after mounting, in creation order; `angles` are the random
      start angles of the six planets. */
  function InitialScene(angles: seq<real>, cos: real -> real, sin: real -> real): (nodes: seq<SceneNode>)
    requires |angles| == |Planets|
    ensures |nodes| == 13 && ParentsFirst(nodes) && Registered(nodes, InitialBodies)
    ensures forall i :: 0 <= i < |nodes| ==> (nodes[i].parent.None? <==> i == 0)
  {
    [SceneRoot,
     Star, Glow(1), Glow(2), Glow(3),
     PlanetNode(Planets[0], angles[0], cos, sin),
     PlanetNode(Planets[1], angles[1], cos, sin),
     PlanetNode(Planets[2], angles[2], cos, sin),
     SceneNode(Some(EarthIndex), NoData, Origin, Origin, Planets[2].radius * 1.1, false),
     PlanetNode(Planets[3], angles[3], cos, sin),
     PlanetNode(Planets[4], angles[4], cos, sin),
     PlanetNode(Planets[5], angles[5], cos, sin),
     SceneNode(Some(SaturnIndex), NoData, Origin, Vec3(HalfPi, 0.0, 0.0), Planets[5].radius * 2.5, true)]
  }

  /** The registry lists the star and the six planets by name, in creation
      order; each of them has a truthy name, the planets orbit and the star
      does not. */
  lemma InitialRegistry(angles: seq<real>, cos: real -> real, sin: real -> real)
    requires |angles| == |Planets|
    ensures var reg := RegistryOf(InitialScene(angles, cos, sin), InitialBodies);
            && |reg| == 7
            && (forall k :: 0 <= k < 7 ==> Named(reg[k]))
            && reg[0].name == Some("Sun") && !Orbits(reg[0])
            && (forall k :: 1 <= k < 7 ==> reg[k].name == Some(Planets[k - 1].name) && Orbits(reg[k]))
  {
  }

  /** Defect, as written: the database spread gives the star the type
      `'Star'`, so the exact `'star'` tests never match. `animate` finds no
      star to spin, and navigating to the star uses the planets' standoff
      of 100. */
  lemma StarTypeIsCapitalisedAsWritten(angles: seq<real>, cos: real -> real, sin: real -> real)
    requires |angles| == |Planets|
    ensures var reg := RegistryOf(InitialScene(angles, cos, sin), InitialBodies);
            && reg[0].kind == Some("Star")
            && FirstStarAsWritten(reg).None?
            && StarNodeAsWritten(InitialScene(angles, cos, sin), InitialBodies).None?
            && StandoffAsWritten(reg[0]) == 100.0
  {
    var reg := RegistryOf(InitialScene(angles, cos, sin), InitialBodies);
    assert reg[0] == StarData;
  }

  /** Corrected: compared case-insensitively, the star is the first
      registered body, it gets the star's spin and the standoff of 200, and
      every planet keeps the standoff of 100. */
  lemma StarFoundWhenComparedCaseInsensitively(angles: seq<real>, cos: real -> real, sin: real -> real)
    requires |angles| == |Planets|
    ensures var nodes := InitialScene(angles, cos, sin);
            var reg := RegistryOf(nodes, InitialBodies);
            && FirstStar(reg) == Some(0)
            && StarNode(nodes, InitialBodies) == Some(SunIndex)
            && Standoff(reg[0]) == 200.0
            && (forall k :: 1 <= k < 7 ==> Standoff(reg[k]) == 100.0)
  {
    var reg := RegistryOf(InitialScene(angles, cos, sin), InitialBodies);
    assert reg[0] == StarData;
    assert ToLower("Star") == "star";
    forall k | 1 <= k < 7 ensures !IsStar(reg[k]) {
      var t := reg[k].kind.value;
      assert t == "Terrestrial Planet" || t == "Gas Giant";
      assert ToLower(t)[0] != 's';
    }
  }

  /** Defect, as written: a frame of `animate` leaves the Sun's node exactly
      as it was, while with the corrected star test it turns by one star
      spin. */
  lemma SunSpinAsWrittenAndIntended(angles: seq<real>, cos: real -> real, sin: real -> real,
                                    t: real, rotX: real, rotY: real)
    requires |angles| == |Planets|
    ensures var nodes := InitialScene(angles, cos, sin);
            && AfterFrame(nodes, InitialBodies, StarNodeAsWritten(nodes, InitialBodies), t, cos, sin, rotX, rotY)[SunIndex]
                 == nodes[SunIndex]
            && AfterFrame(nodes, InitialBodies, StarNode(nodes, InitialBodies), t, cos, sin, rotX, rotY)[SunIndex]
                 == Spin(nodes[SunIndex], StarSpin)
  {
    var nodes := InitialScene(angles, cos, sin);
    StarTypeIsCapitalisedAsWritten(angles, cos, sin);
    StarFoundWhenComparedCaseInsensitively(angles, cos, sin);
    InitialRegistry(angles, cos, sin);
    assert nodes[SunIndex].data == RegistryOf(nodes, InitialBodies)[0];
    FrameLeavesOthersAlone(nodes, InitialBodies, StarNodeAsWritten(nodes, InitialBodies), t, cos, sin, rotX, rotY, SunIndex);
    FrameSpinsStar(nodes, InitialBodies, StarNode(nodes, InitialBodies), t, cos, sin, rotX, rotY);
  }

  /** Defect, as written: the star sits at the world origin, and Three.js
      normalizes the zero vector to itself, so navigating to the star puts
      the camera at the star's centre. */
  lemma StarNavigationAsWritten(angles: seq<real>, cos: real -> real, sin: real -> real, normalize: Vec3 -> Vec3)
    requires |angles| == |Planets|
    requires normalize(Origin) == Origin
    ensures var star := InitialScene(angles, cos, sin)[SunIndex];
            && star.position == Origin
            && PlacementAsWritten(star.position, StandoffAsWritten(star.data), normalize) == star.position
  {
    assert InitialScene(angles, cos, sin)[SunIndex] == Star;
    CameraInsideTargetAsWritten(StandoffAsWritten(StarData), normalize);
  }

  /** Corrected: backing off along the initial line of sight, the camera
      ends up 200 units from the star (squared: 40000). */
  lemma StarNavigationIntended(angles: seq<real>, cos: real -> real, sin: real -> real, normalize: Vec3 -> Vec3)
    requires |angles| == |Planets|
    requires Norm2(normalize(Aim(Origin))) == 1.0
    ensures var star := InitialScene(angles, cos, sin)[SunIndex];
            Norm2(Sub(Placement(star.position, Standoff(star.data), normalize), star.position)) == 40000.0
  {
    assert ToLower("Star") == "star";
    assert Standoff(StarData) == 200.0;
    PlacementKeepsStandoff(Origin, 200.0, normalize);
  }

  /** Mercury lies wholly inside the outermost glow shell: its centre is 100
      units from the star and its radius 5, against the shell's 110. A ray
      from outside the shell to Mercury therefore crosses the shell first. */
  lemma MercuryInsideOuterGlow(angles: seq<real>, cos: real -> real, sin: real -> real)
    requires |angles| == |Planets|
    requires cos(angles[0]) * cos(angles[0]) + sin(angles[0]) * sin(angles[0]) == 1.0
    ensures var nodes := InitialScene(angles, cos, sin);
            && Norm2(nodes[MercuryIndex].position) == 100.0 * 100.0
            && 100.0 + nodes[MercuryIndex].radius < nodes[OuterGlowIndex].radius
            && nodes[OuterGlowIndex].parent == Some(SunIndex) && !nodes[OuterGlowIndex].raycastable
  {
    var c, s := cos(angles[0]), sin(angles[0]);
    var p := InitialScene(angles, cos, sin)[MercuryIndex].position;
    assert p == Vec3(c * 100.0, 0.0, s * 100.0);
    assert (c * 100.0) * (c * 100.0) + (s * 100.0) * (s * 100.0) == (c * c + s * s) * 10000.0;
  }

  /** Defect, as written: a click on Mercury, whose nearest intersection is
      the outer glow, selects the star. */
  lemma MercuryClickAsWritten(angles: seq<real>, cos: real -> real, sin: real -> real)
    requires |angles| == |Planets|
    ensures ResolveAsWritten(InitialScene(angles, cos, sin), [OuterGlowIndex, MercuryIndex]) == Some(SunIndex)
  {
    GlowClimbsToSun(angles, cos, sin);
  }

  /** The walk from the outer glow, which has no name, stops at its parent,
      the named star. */
  lemma GlowClimbsToSun(angles: seq<real>, cos: real -> real, sin: real -> real)
    requires |angles| == |Planets|
    ensures var nodes := InitialScene(angles, cos, sin);
            Owner(nodes, OuterGlowIndex) == SunIndex && Named(nodes[SunIndex].data) && !nodes[OuterGlowIndex].raycastable
  {
    var nodes := InitialScene(angles, cos, sin);
    assert nodes[OuterGlowIndex] == Glow(3) && nodes[SunIndex] == Star;
    assert Owner(nodes, SunIndex) == SunIndex;
  }

  /** Corrected: with the non-raycastable glow left out of the hits, the
      same click selects Mercury. */
  lemma MercuryClickIntended(angles: seq<real>, cos: real -> real, sin: real -> real)
    requires |angles| == |Planets|
    ensures ResolveIntended(InitialScene(angles, cos, sin), [OuterGlowIndex, MercuryIndex]) == Some(MercuryIndex)
  {
    var nodes := InitialScene(angles, cos, sin);
    assert [OuterGlowIndex, MercuryIndex][1..] == [MercuryIndex] && [MercuryIndex][1..] == [];
    assert nodes[OuterGlowIndex] == Glow(3) && nodes[MercuryIndex].raycastable;
    assert RaycastableHits(nodes, [MercuryIndex]) == [MercuryIndex];
    assert RaycastableHits(nodes, [OuterGlowIndex, MercuryIndex]) == RaycastableHits(nodes, [MercuryIndex]);
  }

  /** Defect, as written: a click whose only intersection is the outer glow
      (the ray grazes the shell and misses the star) selects the star;
      with the glow not hit, it selects nothing. */
  lemma GlowAloneClick(angles: seq<real>, cos: real -> real, sin: real -> real)
    requires |angles| == |Planets|
    ensures var nodes := InitialScene(angles, cos, sin);
            && ResolveAsWritten(nodes, [OuterGlowIndex]) == Some(SunIndex)
            && ResolveIntended(nodes, [OuterGlowIndex]).None?
  {
    var nodes := InitialScene(angles, cos, sin);
    GlowClimbsToSun(angles, cos, sin);
    assert [OuterGlowIndex][1..] == [];
    assert RaycastableHits(nodes, [OuterGlowIndex]) == [];
  }

  /** A click whose nearest hit is Earth's atmosphere selects Earth, both
      as written (the walk climbs to the planet) and as intended (the
      atmosphere is not hit). */
  lemma AtmosphereClickSelectsEarth(angles: seq<real>, cos: real -> real, sin: real -> real)
    requires |angles| == |Planets|
    ensures var nodes := InitialScene(angles, cos, sin);
            && ResolveAsWritten(nodes, [AtmosphereIndex, EarthIndex]) == Some(EarthIndex)
            && ResolveIntended(nodes, [AtmosphereIndex, EarthIndex]) == Some(EarthIndex)
  {
    var nodes := InitialScene(angles, cos, sin);
    assert [AtmosphereIndex, EarthIndex][1..] == [EarthIndex] && [EarthIndex][1..] == [];
    assert !nodes[AtmosphereIndex].raycastable && nodes[EarthIndex].raycastable;
    assert RaycastableHits(nodes, [EarthIndex]) == [EarthIndex];
    assert RaycastableHits(nodes, [AtmosphereIndex, EarthIndex]) == RaycastableHits(nodes, [EarthIndex]);
  }

  /** Saturn's rings are raycastable (they are never marked otherwise) and
      hang off Saturn, so a click on them is walked up to Saturn either way,
      also when the ray passes inside the rings' inner edge (radius 37.5)
      and misses the planet (radius 25), so that the rings are its only
      hit. */
  lemma RingsClickSelectsSaturn(angles: seq<real>, cos: real -> real, sin: real -> real)
    requires |angles| == |Planets|
    ensures var nodes := InitialScene(angles, cos, sin);
            && nodes[RingsIndex].raycastable && nodes[RingsIndex].parent == Some(SaturnIndex)
            && ResolveAsWritten(nodes, [RingsIndex, SaturnIndex]) == Some(SaturnIndex)
            && ResolveIntended(nodes, [RingsIndex, SaturnIndex]) == Some(SaturnIndex)
            && ResolveAsWritten(nodes, [RingsIndex]) == Some(SaturnIndex)
            && ResolveIntended(nodes, [RingsIndex]) == Some(SaturnIndex)
  {
    var nodes := InitialScene(angles, cos, sin);
    assert [RingsIndex, SaturnIndex][1..] == [SaturnIndex] && [SaturnIndex][1..] == [];
    assert [RingsIndex][1..] == [];
    assert RaycastableHits(nodes, [RingsIndex]) == [RingsIndex];
    assert nodes[RingsIndex].raycastable && nodes[SaturnIndex].raycastable;
    assert RaycastableHits(nodes, [SaturnIndex]) == [SaturnIndex];
    assert RaycastableHits(nodes, [RingsIndex, SaturnIndex]) == [RingsIndex, SaturnIndex];
  }
}
