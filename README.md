# StarMap interaction engine, in Dafny

This project models the interaction engine of the `InteractiveStarMap`
React component (`src/App.tsx`). The component draws the solar system and
the near-Earth objects of a NASA feed with Three.js. Under the rendering
sits a small, sequential engine, and that engine is what is modelled:

- the **body registry** (`celestialBodiesRef`) over a scene graph, kept as
  an arena of nodes with parent indices;
- **search** (`handleSearch`) and **navigation** (`navigateToObject`),
  including Enter, Escape and the close button of the search box;
- the **drag-or-click** pointer state machine (`handleMouseDown`,
  `handleMouseMove`, `handleMouseUp`, `onMouseLeave`);
- the **pick walk** of `handleClick`, the **wheel zoom** and `resetView` /
  `handleCloseSelectedObject`;
- the **feed effect**, which adds one body per near-Earth object;
- the **per-frame update** of `animate`.

Modules, one per concern:

- `JsText` (text.dfy): the JavaScript string operations the code relies on: `toLowerCase`,
  `includes`, `trim`, `replace(/[()]/g, '')`.
- `Scene` (scene.dfy): nodes, `userData`, the registry, and the pick walk.
- `Search` (search.dfy): suggestions and exact-name lookup.
- `Pointer` (pointer.dfy): the drag record and its transitions.
- `Camera` (camera.dfy): poses, zoom, reset, and the navigation pose.
- `Frame` (frame.dfy): one frame of `animate`.
- `Neo` (neo.dfy): feed records, their nodes and the append loop.
- `Bodies` (bodies.dfy): the scene built on mount, plus the concrete consequences of the
  three defects listed under Findings.
- `StarMap` (starmap.dfy): the class `InteractiveStarMap`, whose fields are the component's refs
  and state and whose methods are its handlers.

The class invariant `Valid` says three things:

- the arena is acyclic, because parents are created first;
- once mounted, the registry lists distinct non-root nodes;
- every suggestion is the name of a registered body.

The class models the code as written. Where the code is defective, separate
members state the corrected behaviour and lemmas compare the two (see
Findings). The frame lemmas take the node that receives the star's spin as a
parameter, so they hold for the code's star test and for the corrected one.

## Model

| member | source | states |
|---|---|---|
| JsText.LowerChar | src/App.tsx:214 | ASCII capitals map to the letter 32 code points on; every other character is kept |
| JsText.ToLower | src/App.tsx:213-217 | same length as the input, and each character is lower-cased in place |
| JsText.ToLowerIdempotent | src/App.tsx:213-217 | lower-casing twice is lower-casing once |
| JsText.IncludesIff | src/App.tsx:219 | `includes` holds exactly when the needle occurs at some position of the haystack |
| JsText.TrimStart | src/App.tsx:696 | the result is a suffix of the input; what is dropped is all white space; the result does not start with white space |
| JsText.TrimEnd | src/App.tsx:696 | the result is a prefix of the input; what is dropped is all white space; the result does not end with white space |
| JsText.Trim | src/App.tsx:696 | the result is a slice of the input with only white space cut at either end, and neither of its ends is white space |
| JsText.TrimOfTrimmed | src/App.tsx:696 | trimming a string with no white space at either end leaves it unchanged |
| JsText.RemoveParens | src/App.tsx:696 | the result has no parenthesis; a character is in it exactly when it is in the input and is not a parenthesis; it is no longer than the input |
| JsText.RemoveParensOfClean | src/App.tsx:696 | removing parentheses from a string that has none leaves it unchanged |
| JsText.RemoveParensOne | src/App.tsx:696 | a single parenthesis is removed and any other single character is kept |
| JsText.RemoveParensAppend | src/App.tsx:696 | removal distributes over concatenation, so the kept characters stay in order and each occurrence is kept once |
| JsText.TrimKeepsCharacters | src/App.tsx:696 | trimming introduces no character |
| JsText.CleanName | src/App.tsx:696 | the cleaned NEO name has no parenthesis, no white space at either end, and is no longer than the raw name |
| JsText.CleanNameIdempotent | src/App.tsx:696 | cleaning a cleaned name changes nothing |
| Scene.RegistryOf | src/App.tsx:496 | the registry has one entry per registered node: that node's `userData`, in push order |
| Scene.RegisterAll | src/App.tsx:722-724 | adding nodes whose parents already exist, and pushing each, keeps the arena acyclic and the registry distinct, and the registry becomes the old one followed by the new nodes' `userData` |
| Scene.AncestorsOrSelf | src/App.tsx:778-780 | the parent chain starts at the node, follows parent links with strictly decreasing indices and ends at a node without a parent |
| Scene.FirstNamed | src/App.tsx:778 | the position of the first node with a truthy name on a chain: every node before it is unnamed, and the node there is named |
| Scene.Owner | src/App.tsx:778-780 | the walk ends at the hit node or one of its ancestors on its parent chain, at a node that is named or has no parent |
| Scene.OwnerIsNearestNamed | src/App.tsx:773-780 | the walk ends at the nearest named node on the chain from the hit to the root, or at the root when none is named |
| Scene.ResolveFindsNearestNamed | src/App.tsx:771-787 | a click with no intersection selects nothing; otherwise it selects the nearest named ancestor-or-self of `intersects[0]`, or nothing |
| Scene.ResolveAsWritten | src/App.tsx:771-787 | a click with no intersection selects nothing; a selection is a named node on the parent chain of `intersects[0]` |
| Scene.RaycastableHits | src/App.tsx:508 | the hits kept are exactly those on nodes not marked `raycastable = false`, and each comes from the hit list |
| Scene.RaycastableHitsAppend | src/App.tsx:508 | the kept hits of a concatenated list are the kept hits of each part, in order |
| Scene.FirstRaycastableHit | src/App.tsx:508 | the first kept hit is preceded in the hit list only by nodes marked non-raycastable |
| Scene.DecorationsAloneSelectNothing | src/App.tsx:562 | with the intended filter, a click that only hits non-raycastable decorations selects nothing |
| Scene.ResolveIntended | src/App.tsx:767-787 | the intended pick selects only named nodes, and agrees with the code whenever the nearest hit is raycastable |
| Search.AllMatches | src/App.tsx:209-219 | there are never more matches than registry bodies |
| Search.AllMatchesAppend | src/App.tsx:209-219 | the matches of a concatenated registry are those of the first part followed by those of the second, so registry order is kept |
| Search.AllMatchesOne | src/App.tsx:209-219 | a single body contributes its name exactly when it has a truthy name whose lower-cased form contains the lower-cased query |
| Search.AllMatchesMembers | src/App.tsx:209-219 | a name is among the matches exactly when some registry body with that name matches |
| Search.Suggestions | src/App.tsx:206-227 | an empty query yields no suggestion, and there are never more than ten suggestions |
| Search.SuggestionsArePrefix | src/App.tsx:223 | for a non-empty query the suggestions are the first min(10, n) of the n matches, in registry order |
| Search.SuggestionsSound | src/App.tsx:209-223 | every suggestion is the truthy name of a registry body whose lower-cased name contains the lower-cased query |
| Search.SuggestionsComplete | src/App.tsx:209-223 | every matching body is suggested unless ten matches come before it in the registry |
| Search.AppendKeepsSuggestions | src/App.tsx:206-227 | registering more bodies keeps the earlier suggestions as a prefix of the new ones |
| Search.FindByName | src/App.tsx:231-233 | the lookup returns the first registry position whose name equals the argument exactly, or None when no body has that name |
| Search.FindByNameAppend | src/App.tsx:231-233 | a name already found is found at the same position after more bodies are registered |
| Search.FirstSuggestionIsFound | src/App.tsx:899-900 | when there is a suggestion, looking up the first one finds a body, and that body matches the query |
| Pointer.DispatchesClick | src/App.tsx:756-760 | a click is dispatched only on a release, and a dispatching release only ends the drag |
| Pointer.RunAppend | src/App.tsx:729-762 | running two event sequences one after the other is running their concatenation |
| Pointer.Step | src/App.tsx:729-762 | a press starts a drag and clears its record; a move while dragging records a drag when it jumps more than 2 pixels on an axis, becomes the previous position and adds its displacement times 0.005 to the rotation; a move while not dragging does nothing; release and leave only end the drag; only a press clears the record and only a dragging move rotates |
| Pointer.Run | src/App.tsx:729-762 | without a press, a recorded drag stays recorded and, once not dragging, no event changes anything |
| Pointer.Moves | src/App.tsx:735 | one move event per pointer position, in order |
| Pointer.DragAlong | src/App.tsx:740-753 | while dragging, moves leave the last position as the previous one, add the total displacement times 0.005 to the rotation, and record a drag exactly when some single step exceeds 2 pixels on an axis |
| Pointer.SlowDragStillClicks | src/App.tsx:744-762 | a press, moves with no single step above the threshold, and a release still dispatch a click, and the scene was rotated about both axes by the whole path's displacement times 0.005 |
| Pointer.RunPressMove | src/App.tsx:729-754 | a press followed by a move is the two steps in order |
| Pointer.ClickOrDrag | src/App.tsx:744-760 | a press, a one-pixel move and a release is a click; with a ten-pixel move it is a drag |
| Pointer.LeaveKeepsDragRecord | src/App.tsx:843 | leaving ends the drag and keeps `hasDragged`; a move while not dragging changes nothing |
| Camera.ZoomFactor | src/App.tsx:792-793 | the factor is 1.1 or 0.9, and it is above 1 exactly when `deltaY > 0` |
| Camera.Zoom | src/App.tsx:790-795 | a wheel tick keeps the look-at point and scales the camera position by 1.1 when `deltaY > 0` and by 0.9 otherwise |
| Camera.ZoomTicksScale | src/App.tsx:794 | n wheel ticks in one direction scale the camera position by the factor to the n-th power and keep the look-at point; zoom has no clamp |
| Camera.ZoomOutInDrifts | src/App.tsx:792-794 | one tick out and one tick in leave the camera at 0.99 of its position |
| Camera.Standoff | src/App.tsx:241 | the intended standoff: 200 exactly for a body whose type is the star's (compared case-insensitively), otherwise 100 |
| Camera.StandoffAsWritten | src/App.tsx:241 | the standoff as written is 200 or 100, and 200 exactly when the type is the literal `'star'` |
| Camera.PlacementAsWritten | src/App.tsx:242-243 | the camera is offset from the body by its normalized world position times minus the standoff |
| Camera.CameraInsideTargetAsWritten | src/App.tsx:242-244 | as written, for a body at the world origin the camera is placed at distance 0 from it, whatever the standoff |
| Camera.Aim | src/App.tsx:242 | the corrected line of sight is never the zero vector, and is the body's position whenever that is not the origin |
| Camera.Placement | src/App.tsx:242-243 | the corrected camera is offset from the body by the normalized aim times minus the standoff |
| Camera.PlacementAgreesOffOrigin | src/App.tsx:242-244 | for a body away from the origin the intended pose is the one the code computes |
| Camera.PlacementKeepsStandoff | src/App.tsx:242-244 | with a unit aim, the intended camera position is exactly the standoff away from the body |
| Camera.Reset | src/App.tsx:196-203 | without a camera nothing changes; with one, the camera is at (0, 100, 500) looking at the origin, rotation is (0, 0) and nothing is selected |
| Camera.ResetIdempotent | src/App.tsx:196-203 | resetting twice is resetting once, and once a camera exists the result does not depend on the earlier state |
| Frame.FirstStar | src/App.tsx:621 | the intended `find`: the first registry position whose type is the star's compared case-insensitively, or None when there is none |
| Frame.FirstStarAsWritten | src/App.tsx:621 | the `find` as written: the first registry position whose type is exactly `'star'`, or None |
| Frame.StarNodeAsWritten | src/App.tsx:621 | the node the code's `find` returns: a registered body whose type is exactly `'star'`, or None when no registered body has that type |
| Frame.StarNode | src/App.tsx:621 | the corrected `find`: a registered body whose type is the star's compared case-insensitively, or None when there is none |
| Frame.Advance | src/App.tsx:633-638 | one orbit update keeps the node's `userData`, links, radius, pick flag and height, and turns it by 0.01 about y |
| Frame.SpinStar | src/App.tsx:621-624 | the node chosen for the star turns by 0.001 about y; every other node, and every node when none is chosen, is unchanged |
| Frame.MoveOrbits | src/App.tsx:631-640 | the orbit loop changes no node's `userData` and keeps the arena's length |
| Frame.OrbitLoop | src/App.tsx:631-640 | visiting the registry one body at a time gives exactly the pointwise orbit update |
| Frame.AfterFrame | src/App.tsx:621-646 | for any chosen star node, a frame changes only transforms: parents, `userData`, radii and pick flags are kept, so the registry and acyclicity are kept |
| Frame.FrameKeepsStar | src/App.tsx:621 | a frame does not change which node either star test finds |
| Frame.FrameSetsSceneRotation | src/App.tsx:643-646 | the scene root's x and y rotation become the drag accumulator, and nothing else about it changes |
| Frame.FrameLeavesOthersAlone | src/App.tsx:621-640 | a node other than the root that neither orbits nor is the chosen star node is left exactly as it was |
| Frame.FrameMovesOrbits | src/App.tsx:631-640 | an orbiting body is put at angle `startAngle + t * orbitSpeed` on its circle at its height, and turns by 0.01 about y, plus 0.001 more when it is the chosen star node |
| Frame.FrameSpinsStar | src/App.tsx:621-624 | a chosen star node that does not orbit turns by 0.001 about y and stays where it is |
| Frame.OrbitPositionIsAbsolute | src/App.tsx:634-637 | an orbiting body's position after a frame does not depend on earlier frames |
| Frame.OrbitOnCircle | src/App.tsx:634-637 | with `cos` and `sin` on the unit circle, an orbiting body lies at its orbit radius from the star's axis |
| Frame.OrbitPointOnCircle | src/App.tsx:635-637 | a point computed from an orbit's angle lies at the orbit radius when `cos` and `sin` are on the unit circle |
| Frame.Frames | src/App.tsx:609-646 | frames as `animate` runs them, with the code's star test, keep the registry |
| Frame.FramesSpinOrbiting | src/App.tsx:631-640 | after n frames an orbiting body the code's star test does not pick has turned by n times 0.01, whatever the frame times |
| Neo.Clamp | src/App.tsx:678 | the size is within [2, 10], it equals the input inside that range, and it is the bound below or above it |
| Neo.NeoSize | src/App.tsx:678 | a NEO's radius is within [2, 10], and is ten times its maximum diameter in kilometres whenever that is in range |
| Neo.NeoSizeMonotone | src/App.tsx:678 | a larger maximum diameter never gives a smaller size |
| Neo.NeoPosition | src/App.tsx:686-692 | with the height's random value in [0, 1), a NEO is within 50 units of the orbital plane |
| Neo.NeoPositionInRing | src/App.tsx:687-692 | with random values in [0, 1) and `cos`, `sin` on the unit circle, a NEO lies between 300 and 500 units from the star's axis and within 50 units of the orbital plane |
| Neo.NeoData | src/App.tsx:696-700 | a NEO keeps its raw name as `originalName`, gets a name with no parenthesis and no white space at either end, does not orbit and is not a star by either test |
| Neo.NeoNodes | src/App.tsx:677-700 | one node per feed record |
| Neo.NeoNodesWellFormed | src/App.tsx:678-700 | each NEO node hangs off the scene root, is pickable, keeps the raw name as `originalName`, has a clean name and a size within [2, 10], and neither orbits nor counts as a star |
| Neo.CleanFeedNameKept | src/App.tsx:696 | a feed name that is already clean is kept exactly, so the body can be found by it |
| Neo.NeoDataOf | src/App.tsx:698-700 | the `userData` of the feed's bodies, one per record, in feed order |
| Neo.AppendFeed | src/App.tsx:677-725 | the scene gains the feed's nodes at its end and the registry their indices; it stays acyclic and distinct, and the registry becomes the old one followed by the feed's `userData` |
| Neo.AddEach | src/App.tsx:723-724 | adding and pushing each node in turn appends all of them, and their consecutive indices, in order |
| Bodies.Spread | src/App.tsx:490-494 | a key in the spread database entry overrides the literal one; without it the literal one stays |
| Bodies.InitialScene | src/App.tsx:404-581 | the mounted scene has 13 nodes, is acyclic, registers the star and the planets, and only the root has no parent |
| Bodies.InitialRegistry | src/App.tsx:490-550 | the registry holds the Sun and then the six planets, all named, and only the planets orbit |
| Bodies.StarTypeIsCapitalisedAsWritten | src/App.tsx:40 | as written the Sun's type is `'Star'`, so the literal `'star'` tests find no star in the registry or the scene and the Sun's standoff is 100 |
| Bodies.StarFoundWhenComparedCaseInsensitively | src/App.tsx:621-623 | compared case-insensitively the Sun is the first star, it gets the star spin, its standoff is 200 and every planet's is 100 |
| Bodies.SunSpinAsWrittenAndIntended | src/App.tsx:621-624 | as written a frame leaves the Sun exactly as it was; with the corrected test it turns by 0.001 |
| Bodies.StarNavigationAsWritten | src/App.tsx:242-244 | as written, navigating to the Sun puts the camera at the Sun's centre |
| Bodies.StarNavigationIntended | src/App.tsx:242-244 | with the corrected aim, navigating to the Sun leaves the camera 200 units from it |
| Bodies.MercuryInsideOuterGlow | src/App.tsx:499-510 | Mercury lies wholly inside the outermost glow shell of radius 110, which is marked non-raycastable |
| Bodies.MercuryClickAsWritten | src/App.tsx:771-787 | as written, a click whose first intersection is the outer glow, in front of Mercury, selects the Sun |
| Bodies.GlowClimbsToSun | src/App.tsx:778-780 | the walk from the outer glow, which has no name and is marked non-raycastable, stops at the named Sun |
| Bodies.MercuryClickIntended | src/App.tsx:508 | with non-raycastable hits dropped, the same click selects Mercury |
| Bodies.GlowAloneClick | src/App.tsx:767-787 | as written, a click whose only intersection is the outer glow selects the Sun; with the glow not hit it selects nothing |
| Bodies.AtmosphereClickSelectsEarth | src/App.tsx:552-564 | a click through Earth's atmosphere selects Earth, both as written and as intended |
| Bodies.RingsClickSelectsSaturn | src/App.tsx:566-581 | Saturn's rings are pickable children of Saturn; a click whose hits are the rings then Saturn, or the rings alone (a ray through the ring inside radius 37.5 that misses the planet), selects Saturn both as written and as intended |
| StarMap.InteractiveStarMap.constructor | src/App.tsx:6-30 | the initial state: no scene, no camera, not dragging, nothing selected, search closed and empty |
| StarMap.InteractiveStarMap.Mount | src/App.tsx:404-581 | the scene and registry become the initial ones and the camera gets its initial pose; nothing else changes |
| StarMap.InteractiveStarMap.HandleSearch | src/App.tsx:206-227 | the query is recorded and the suggestions become those of the registry for it; nothing else changes |
| StarMap.InteractiveStarMap.NavigateToObject | src/App.tsx:229-255 | when the name is found and a camera exists, the camera is placed as the code computes (normalized world position times minus the literal-test standoff, plus the position) and looks at the body; the body is selected, the image error cleared and the search closed and cleared; otherwise nothing changes |
| StarMap.InteractiveStarMap.FlyTo | src/App.tsx:236-253 | the camera pose, as the code computes it, and the selection, cleared image error and cleared search of a successful navigation |
| StarMap.InteractiveStarMap.ConfirmSearch | src/App.tsx:899-900 | Enter with suggestions, once mounted, always finds the first suggested body: the camera is placed at it as the code computes, it is selected, the image error is cleared and the search closed; with none it changes nothing |
| StarMap.InteractiveStarMap.OpenSearch | src/App.tsx:883 | the search box opens and nothing else changes |
| StarMap.InteractiveStarMap.CancelSearch | src/App.tsx:901-914 | Escape or the close button closes the search and clears its query and suggestions |
| StarMap.InteractiveStarMap.ResetView | src/App.tsx:196-203 | the camera, rotation and selection become those of `Reset`, and nothing else changes |
| StarMap.InteractiveStarMap.CloseSelection | src/App.tsx:828-832 | the selection and image error are cleared and the view is reset |
| StarMap.InteractiveStarMap.MouseDown | src/App.tsx:729-733 | the drag record takes the press step: dragging, no drag yet, pointer recorded |
| StarMap.InteractiveStarMap.MouseMove | src/App.tsx:735-754 | the drag record takes the move step, and nothing else changes |
| StarMap.InteractiveStarMap.MouseLeave | src/App.tsx:843 | only `isDragging` is cleared |
| StarMap.InteractiveStarMap.HandleClick | src/App.tsx:764-788 | once mounted, the node the walk from `intersects[0]` ends on is selected and the image error cleared when it is named; otherwise the selection is unchanged; the walk terminates |
| StarMap.InteractiveStarMap.MouseUp | src/App.tsx:756-762 | a click, with the selection of `HandleClick`, is dispatched exactly when no drag was recorded, and dragging ends either way |
| StarMap.InteractiveStarMap.HandleWheel | src/App.tsx:790-795 | with a camera its position is scaled by the zoom factor; without one nothing changes |
| StarMap.InteractiveStarMap.AppendNeos | src/App.tsx:673-726 | once mounted, the feed's nodes are appended and registered in feed order, with no de-duplication, and earlier registry entries are unchanged; before mounting or for an empty delivery nothing changes |
| StarMap.InteractiveStarMap.Animate | src/App.tsx:609-646 | the scene becomes one frame of `AfterFrame` at elapsed time `t`, with the star spin given to the node the literal `'star'` test finds, and the current drag accumulator; nothing else changes |

## Left out

- Rendering is not modelled. This covers the Three.js renderer, camera projection, resize handling, lights, fog, materials, GLSL shaders, orbit lines and the background starfield and its rotation. It is all presentation.
- The shader `time` uniform update in `animate` is not modelled. It only feeds the GPU.
- The raycaster's geometry is not modelled. The intersections of a click are an input, nearest first. The normalized pointer coordinates that `handleMouseMove` writes into `mouseRef` are therefore not modelled either.
- `Math.cos`, `Math.sin`, vector normalization and `getWorldPosition` are function parameters. Lemmas that need them assume one of three facts: `cos² + sin² = 1`, a unit normal, or that the zero vector normalizes to itself.
- `Math.random` values are parameters: planet start angles, NEO ring distances and heights.
- Numbers are exact reals. There is no floating-point rounding, no NaN and no infinity.
- JsText.LowerChar: lower-cases the ASCII capitals only; JavaScript's full Unicode case mapping (accented and non-Latin letters) is not modelled, so names with such capitals may match a query here that they would not in the code, or the reverse.
- JsText.ToLower: inherits the ASCII-only mapping of `LowerChar`.
- Neo.AppendFeed: assumes every feed record carries `name` and `estimated_diameter.kilometers.estimated_diameter_max`, which `NeoRecord` cannot leave out. In the code, a record without them, or without `close_approach_data`, throws a TypeError inside the `forEach` (src/App.tsx:678, 696, 703-705). The delivery then stops at that record: the records before it stay added and registered, and the rest are dropped. That part-way failure is not modelled.
- StarMap.InteractiveStarMap.AppendNeos: inherits the complete-record assumption of `Neo.AppendFeed`; a delivery that throws part-way is not modelled.
- Camera.CameraInsideTargetAsWritten and Bodies.StarNavigationAsWritten: require `normalize(Origin) == Origin`. Vector normalization is a parameter; Three.js's `Vector3.normalize` divides by the length or by 1 when the length is 0, so it meets this requirement.
- The NASA fetch, `sessionStorage` caching, the refresh, clock and freshness timers, and the APOD data are left out. They are network I/O and timers; a delivery is an input to `AppendNeos`.
- `userData` fields used only for display are not modelled: classification, facts, images, formatted distances and the NEO `toLocaleString` / `toFixed` strings. All JSX is left out.
- The scene and raycaster refs exist together with the camera, so "mounted" is modelled by the camera being present. The guard `!sceneRef.current` of the feed effect and `!raycasterRef.current` of `handleClick` both become "no camera".
- React state updates take effect immediately and in call order. Batching is not modelled, and neither is the development-mode double run of effects: `Mount` requires an unmounted component.
- Animation-frame scheduling and effect teardown are not modelled.
- The drag threshold applies to each single move, as the code does. A threshold on the total distance travelled is not modelled.
- The class runs the code as written. The corrected behaviours of the Findings (`Standoff`, `Placement`, `ResolveIntended`, `FirstStar`, `StarNode`) are separate members with their own lemmas, and no handler uses them.

## Findings

| source | as written | input that shows it | evidently intended | confidence | as-written member | corrected member |
|---|---|---|---|---|---|---|
| src/App.tsx:490-494, 241, 621 | The Sun's `userData` spreads `planetDatabase['Sun']` after `type: 'star'`, so its type is `'Star'`. The exact `=== 'star'` tests never match, so `animate` spins no star and navigating to the Sun uses the standoff of 100. | the scene just after mount | the Sun counts as the star: it spins, and the camera stops 200 units from it | not executed | Bodies.StarTypeIsCapitalisedAsWritten (with Frame.StarNodeAsWritten, Camera.StandoffAsWritten, Bodies.SunSpinAsWrittenAndIntended) | Bodies.StarFoundWhenComparedCaseInsensitively (with Frame.StarNode, Camera.Standoff) |
| src/App.tsx:240-244 | The camera is placed at `normalize(p) * -distance + p`. The Sun sits at the world origin, Three.js normalizes the zero vector to itself, and so the camera lands at the Sun's centre. | `navigateToObject('Sun')` | the camera backs off `distance` from the body along a defined line of sight | not executed | Bodies.StarNavigationAsWritten (with Camera.CameraInsideTargetAsWritten) | Bodies.StarNavigationIntended (with Camera.Placement, Camera.PlacementKeepsStandoff) |
| src/App.tsx:508, 562, 767-773 | `raycastable = false` is not a property `intersectObjects` consults, so decorations are still hit. Mercury (orbit 100, radius 5) lies inside the Sun's outer glow (radius 110), so a click on Mercury first hits the glow and the walk selects the Sun. | a click on Mercury, with intersections [outer glow, Mercury] | decorations marked non-raycastable are not picked, and the click selects Mercury | not executed | Bodies.MercuryClickAsWritten (with Scene.ResolveAsWritten, Bodies.GlowAloneClick) | Bodies.MercuryClickIntended (with Scene.ResolveIntended) |
