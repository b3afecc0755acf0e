/** The interaction state of the star map component and the handlers that
    update it: search and navigation, the drag-or-click mouse handlers and
    the pick, zoom and reset, the feed delivery and the per-frame update. */
module StarMap {
  import opened JsText
  import opened Scene
  import opened Search
  import opened Pointer
  import opened Camera
  import opened Frame
  import opened Neo
  import opened Bodies

  /** The React state of the information panel and the search box. */
  datatype Panel = Panel(selected: Option<UserData>, imageLoadError: bool,
                         showSearch: bool, searchQuery: string, suggestions: seq<string>)

  class InteractiveStarMap {
    /** The scene graph (root at index 0 once mounted) and the body
        registry `celestialBodiesRef`, as node indices. */
    var nodes: seq<SceneNode>
    var bodies: seq<nat>
    /** `isDraggingRef`, `hasDraggedRef`, `previousMouseRef`, `rotationRef`. */
    var isDragging: bool
    var hasDragged: bool
    var prevX: int
    var prevY: int
    var rotX: real
    var rotY: real
    /** `cameraRef`: absent until the scene is mounted. */
    var camera: Option<Pose>
    /** React state: the selected body's `userData`, the image error flag
        and the search box. */
    var selected: Option<UserData>
    var imageLoadError: bool
    var showSearch: bool
    var searchQuery: string
    var suggestions: seq<string>

    /** The scene is acyclic; before mounting there is no scene, no
        registry and no suggestion, afterwards the registry lists distinct non-root nodes; and
        every suggestion is the name of some registered body. */
    ghost predicate Valid()
      reads this
    {
      && ParentsFirst(nodes)
      && (camera.None? ==> nodes == [] && bodies == [] && suggestions == [])
      && (camera.Some? ==> Registered(nodes, bodies) && nodes[0].parent.None?)
      && AllFound(RegistryOf(nodes, bodies), suggestions)
    }

    /** The `userData` of the registered bodies, in registration order. */
    function Registry(): seq<UserData>
      reads this
      requires Valid()
    {
      RegistryOf(nodes, bodies)
    }

    function DragState(): Drag
      reads this
    {
      Drag(isDragging, hasDragged, prevX, prevY, rotX, rotY)
    }

    function ViewState(): View
      reads this
    {
      View(camera, rotX, rotY, selected)
    }

    function PanelState(): Panel
      reads this
    {
      Panel(selected, imageLoadError, showSearch, searchQuery, suggestions)
    }

    /** The state before the mount effect has run. */
    constructor ()
      ensures Valid()
      ensures nodes == [] && bodies == [] && camera.None?
      ensures DragState() == Idle
      ensures selected.None? && !imageLoadError
      ensures !showSearch && searchQuery == [] && suggestions == []
    {
      nodes, bodies := [], [];
      isDragging, hasDragged, prevX, prevY, rotX, rotY := false, false, 0, 0, 0.0, 0.0;
      camera := None;
      selected, imageLoadError := None, false;
      showSearch, searchQuery, suggestions := false, [], [];
    }

    /** The mount effect: builds the scene with the given planet start
        angles, registers the star and the planets and places the camera at
        its initial pose. */
    method Mount(angles: seq<real>, cos: real -> real, sin: real -> real)
      requires Valid() && camera.None? && |angles| == |Planets|
      modifies this
      ensures Valid()
      ensures nodes == InitialScene(angles, cos, sin) && bodies == InitialBodies && camera == Some(InitialPose)
      ensures DragState() == old(DragState()) && selected == old(selected) && imageLoadError == old(imageLoadError)
      ensures showSearch == old(showSearch) && searchQuery == old(searchQuery) && suggestions == old(suggestions)
    {
      nodes := InitialScene(angles, cos, sin);
      bodies := InitialBodies;
      camera := Some(InitialPose);
    }

    /** `handleSearch`: records the query and recomputes the suggestions. */
    method HandleSearch(query: string)
      requires Valid()
      modifies this
      ensures Valid()
      ensures searchQuery == query && suggestions == Suggestions(old(Registry()), query)
      ensures nodes == old(nodes) && bodies == old(bodies) && camera == old(camera)
      ensures DragState() == old(DragState()) && selected == old(selected) && imageLoadError == old(imageLoadError)
      ensures showSearch == old(showSearch)
    {
      var found := Suggestions(Registry(), query);
      forall k | 0 <= k < |found| ensures FindByName(Registry(), found[k]).Some? {
        SuggestionsSound(Registry(), query, found[k]);
        var j :| 0 <= j < |Registry()| && Named(Registry()[j]) && Registry()[j].name.value == found[k] &&
                  Includes(ToLower(found[k]), ToLower(query));
        assert Registry()[j].name == Some(found[k]);
      }
      searchQuery := query;
      suggestions := found;
    }

    /** `navigateToObject`: when a registered body has exactly this name and
        the camera exists, the camera backs off from the body's world
        position by the standoff the code computes (`StandoffAsWritten`),
        along the normalized position vector (`PlacementAsWritten`), and
        looks at it, the body is
        selected and the search is closed and cleared; otherwise nothing
        changes. `worldPosition` gives each node's world position and
        `normalize` is Three.js's vector normalization. */
    method NavigateToObject(name: string, worldPosition: nat -> Vec3, normalize: Vec3 -> Vec3)
      requires Valid()
      modifies this
      ensures Valid()
      ensures var t := FindByName(old(Registry()), name);
              t.Some? && old(camera).Some? ==>
                var d, w := old(Registry())[t.value], worldPosition(old(bodies)[t.value]);
                camera == Some(Pose(PlacementAsWritten(w, StandoffAsWritten(d), normalize), w))
                && PanelState() == Panel(Some(d), false, false, [], [])
      ensures FindByName(old(Registry()), name).None? || old(camera).None? ==>
                camera == old(camera) && PanelState() == old(PanelState())
      ensures nodes == old(nodes) && bodies == old(bodies) && DragState() == old(DragState())
    {
      ghost var registry := Registry();
      var target := FindByName(Registry(), name);
      if target.Some? && camera.Some? {
        var node := bodies[target.value];
        assert nodes[node].data == registry[target.value];
        FlyTo(nodes[node].data, worldPosition(node), normalize);
      }
    }

    /** The state change of a successful navigation to the body with
        `userData` `d` at world position `w`. */
    method FlyTo(d: UserData, w: Vec3, normalize: Vec3 -> Vec3)
      requires Valid() && camera.Some?
      modifies this
      ensures Valid()
      ensures camera == Some(Pose(PlacementAsWritten(w, StandoffAsWritten(d), normalize), w))
      ensures PanelState() == Panel(Some(d), false, false, [], [])
      ensures nodes == old(nodes) && bodies == old(bodies) && DragState() == old(DragState())
    {
      var pose := Pose(PlacementAsWritten(w, StandoffAsWritten(d), normalize), w);
      camera, selected, imageLoadError := Some(pose), Some(d), false;
      showSearch, searchQuery, suggestions := false, [], [];
    }

    /** Enter in the search box: navigates to the first suggestion, if
        any. Every suggestion names a registered body, so once the scene is
        mounted this always selects the first body with that name. */
    method ConfirmSearch(worldPosition: nat -> Vec3, normalize: Vec3 -> Vec3)
      requires Valid()
      modifies this
      ensures Valid()
      ensures old(suggestions) != [] && old(camera).Some? ==>
                var t := FindByName(old(Registry()), old(suggestions)[0]);
                && t.Some?
                && var d, w := old(Registry())[t.value], worldPosition(old(bodies)[t.value]);
                   && camera == Some(Pose(PlacementAsWritten(w, StandoffAsWritten(d), normalize), w))
                   && PanelState() == Panel(Some(d), false, false, [], [])
      ensures old(suggestions) == [] ==>
                camera == old(camera) && selected == old(selected) && imageLoadError == old(imageLoadError)
                && showSearch == old(showSearch) && searchQuery == old(searchQuery) && suggestions == old(suggestions)
      ensures nodes == old(nodes) && bodies == old(bodies) && DragState() == old(DragState())
    {
      if |suggestions| > 0 {
        NavigateToObject(suggestions[0], worldPosition, normalize);
      }
    }

    /** The search button: opens the search box. */
    method OpenSearch()
      requires Valid()
      modifies this
      ensures Valid()
      ensures showSearch && searchQuery == old(searchQuery) && suggestions == old(suggestions)
      ensures nodes == old(nodes) && bodies == old(bodies) && camera == old(camera)
      ensures DragState() == old(DragState()) && selected == old(selected) && imageLoadError == old(imageLoadError)
    {
      showSearch := true;
    }

    /** Escape in the search box, or its close button: closes and clears
        the search. */
    method CancelSearch()
      requires Valid()
      modifies this
      ensures Valid()
      ensures !showSearch && searchQuery == [] && suggestions == []
      ensures nodes == old(nodes) && bodies == old(bodies) && camera == old(camera)
      ensures DragState() == old(DragState()) && selected == old(selected) && imageLoadError == old(imageLoadError)
    {
      showSearch, searchQuery, suggestions := false, [], [];
    }

    /** `resetView`. */
    method ResetView()
      requires Valid()
      modifies this
      ensures Valid()
      ensures ViewState() == Reset(old(ViewState()))
      ensures nodes == old(nodes) && bodies == old(bodies)
      ensures isDragging == old(isDragging) && hasDragged == old(hasDragged) && prevX == old(prevX) && prevY == old(prevY)
      ensures imageLoadError == old(imageLoadError)
      ensures showSearch == old(showSearch) && searchQuery == old(searchQuery) && suggestions == old(suggestions)
    {
      if camera.Some? {
        camera := Some(InitialPose);
        rotX, rotY := 0.0, 0.0;
        selected := None;
      }
    }

    /** `handleCloseSelectedObject`: clears the selection and the image
        error flag, then resets the view. */
    method CloseSelection()
      requires Valid()
      modifies this
      ensures Valid()
      ensures ViewState() == Reset(old(ViewState()).(selected := None))
      ensures selected.None? && !imageLoadError
      ensures nodes == old(nodes) && bodies == old(bodies)
      ensures isDragging == old(isDragging) && hasDragged == old(hasDragged) && prevX == old(prevX) && prevY == old(prevY)
      ensures showSearch == old(showSearch) && searchQuery == old(searchQuery) && suggestions == old(suggestions)
    {
      selected := None;
      imageLoadError := false;
      ResetView();
    }

    /** `handleMouseDown`. */
    method MouseDown(x: int, y: int)
      requires Valid()
      modifies this
      ensures Valid()
      ensures DragState() == Step(old(DragState()), Down(x, y))
      ensures nodes == old(nodes) && bodies == old(bodies) && camera == old(camera)
      ensures selected == old(selected) && imageLoadError == old(imageLoadError)
      ensures showSearch == old(showSearch) && searchQuery == old(searchQuery) && suggestions == old(suggestions)
    {
      isDragging := true;
      hasDragged := false;
      prevX, prevY := x, y;
    }

    /** `handleMouseMove` (the pointer's normalized device coordinates are
        not modelled: the hits of a click are an input). */
    method MouseMove(x: int, y: int)
      requires Valid()
      modifies this
      ensures Valid()
      ensures DragState() == Step(old(DragState()), Move(x, y))
      ensures nodes == old(nodes) && bodies == old(bodies) && camera == old(camera)
      ensures selected == old(selected) && imageLoadError == old(imageLoadError)
      ensures showSearch == old(showSearch) && searchQuery == old(searchQuery) && suggestions == old(suggestions)
    {
      if isDragging {
        var dx, dy := x - prevX, y - prevY;
        if Abs(dx) > Threshold || Abs(dy) > Threshold {
          hasDragged := true;
        }
        rotY := rotY + dx as real * Gain;
        rotX := rotX + dy as real * Gain;
        prevX, prevY := x, y;
      }
    }

    /** `onMouseLeave`. */
    method MouseLeave()
      requires Valid()
      modifies this
      ensures Valid()
      ensures DragState() == Step(old(DragState()), Leave)
      ensures nodes == old(nodes) && bodies == old(bodies) && camera == old(camera)
      ensures selected == old(selected) && imageLoadError == old(imageLoadError)
      ensures showSearch == old(showSearch) && searchQuery == old(searchQuery) && suggestions == old(suggestions)
    {
      isDragging := false;
    }

    /** `handleClick`, with the raycaster's intersections, nearest first,
        given as `hits`: without a camera nothing happens; otherwise the
        nearest hit, whatever its `raycastable` flag, is walked up to its
        owner and selected when it is named (`ResolveAsWritten`). */
    method HandleClick(hits: seq<nat>)
      requires Valid() && HitsInScene(nodes, hits)
      modifies this
      ensures Valid()
      ensures var r := ResolveAsWritten(old(nodes), hits);
              if old(camera).Some? && r.Some? then selected == Some(old(nodes)[r.value].data) && !imageLoadError
              else selected == old(selected) && imageLoadError == old(imageLoadError)
      ensures nodes == old(nodes) && bodies == old(bodies) && camera == old(camera) && DragState() == old(DragState())
      ensures showSearch == old(showSearch) && searchQuery == old(searchQuery) && suggestions == old(suggestions)
    {
      if camera.None? {
        return;
      }
      if hits != [] {
        var o: nat := hits[0];
        while nodes[o].parent.Some? && !Named(nodes[o].data)
          invariant o < |nodes| && Owner(nodes, o) == Owner(nodes, hits[0])
          decreases o
        {
          o := nodes[o].parent.value;
        }
        if Named(nodes[o].data) {
          selected := Some(nodes[o].data);
          imageLoadError := false;
        }
      }
    }

    /** `handleMouseUp`: a click is dispatched exactly when no drag was
        recorded since the last press, and the drag ends either way. */
    method MouseUp(hits: seq<nat>) returns (clicked: bool)
      requires Valid() && HitsInScene(nodes, hits)
      modifies this
      ensures Valid()
      ensures clicked == DispatchesClick(old(DragState()), Up)
      ensures DragState() == Step(old(DragState()), Up)
      ensures var r := ResolveAsWritten(old(nodes), hits);
              if clicked && old(camera).Some? && r.Some? then selected == Some(old(nodes)[r.value].data) && !imageLoadError
              else selected == old(selected) && imageLoadError == old(imageLoadError)
      ensures nodes == old(nodes) && bodies == old(bodies) && camera == old(camera)
      ensures showSearch == old(showSearch) && searchQuery == old(searchQuery) && suggestions == old(suggestions)
    {
      clicked := !hasDragged;
      if clicked {
        HandleClick(hits);
      }
      isDragging := false;
    }

    /** `handleWheel`. */
    method HandleWheel(deltaY: real)
      requires Valid()
      modifies this
      ensures Valid()
      ensures old(camera).Some? ==> camera == Some(Zoom(old(camera).value, deltaY))
      ensures old(camera).None? ==> camera == old(camera)
      ensures nodes == old(nodes) && bodies == old(bodies) && DragState() == old(DragState())
      ensures selected == old(selected) && imageLoadError == old(imageLoadError)
      ensures showSearch == old(showSearch) && searchQuery == old(searchQuery) && suggestions == old(suggestions)
    {
      if camera.Some? {
        camera := Some(Zoom(camera.value, deltaY));
      }
    }

    /** The feed effect: once the scene exists, one node per record is added
        under the scene root and registered, in feed order, after everything
        already there; `us` and `vs` are the random values drawn per record.
        Before mounting, or for an empty delivery, nothing changes. */
    method AppendNeos(feed: seq<NeoRecord>, us: seq<real>, vs: seq<real>, cos: real -> real, sin: real -> real)
      requires Valid() && |us| == |feed| && |vs| == |feed|
      modifies this
      ensures Valid()
      ensures old(camera).Some? ==>
                && nodes == old(nodes) + NeoNodes(feed, us, vs, cos, sin)
                && bodies == old(bodies) + Indices(|old(nodes)|, |feed|)
                && Registry() == old(Registry()) + NeoDataOf(feed)
      ensures old(camera).None? || feed == [] ==> nodes == old(nodes) && bodies == old(bodies)
      ensures camera == old(camera) && DragState() == old(DragState())
      ensures selected == old(selected) && imageLoadError == old(imageLoadError)
      ensures showSearch == old(showSearch) && searchQuery == old(searchQuery) && suggestions == old(suggestions)
    {
      if camera.None? || |feed| == 0 {
        return;
      }
      ghost var before := Registry();
      var ns, bs := AppendFeed(nodes, bodies, feed, us, vs, cos, sin);
      forall i | 0 <= i < |suggestions| ensures FindByName(RegistryOf(ns, bs), suggestions[i]).Some? {
        FindByNameAppend(before, NeoDataOf(feed), suggestions[i]);
      }
      nodes, bodies := ns, bs;
    }

    /** One frame of `animate` at elapsed time `t`: the star's spin goes to
        the registered body the code's exact `'star'` test finds. */
    method Animate(t: real, cos: real -> real, sin: real -> real)
      requires Valid() && camera.Some?
      modifies this
      ensures Valid()
      ensures nodes == AfterFrame(old(nodes), old(bodies), StarNodeAsWritten(old(nodes), old(bodies)), t, cos, sin, old(rotX), old(rotY))
      ensures bodies == old(bodies) && camera == old(camera) && DragState() == old(DragState())
      ensures selected == old(selected) && imageLoadError == old(imageLoadError)
      ensures showSearch == old(showSearch) && searchQuery == old(searchQuery) && suggestions == old(suggestions)
    {
      var ns := nodes;
      var star := StarNodeAsWritten(ns, bodies);
      if star.Some? {
        ns := ns[star.value := Spin(ns[star.value], StarSpin)];
      }
      assert ns == SpinStar(nodes, bodies, star);
      ns := OrbitLoop(ns, bodies, t, cos, sin);
      ns := ns[0 := ns[0].(rotation := ns[0].rotation.(x := rotX, y := rotY))];
      assert ns == AfterFrame(nodes, bodies, star, t, cos, sin, rotX, rotY);
      nodes := ns;
    }
  }
}
