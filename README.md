# Seven-floor building viewer: floor selection engine

This project models the interaction core of the `SevenFloorBuilding` React
component. The component shows seven stacked floor slabs in a Three.js scene,
each with five small markers. Clicking a floor selects it. The scene then
hides every other floor, shows the markers of the selected floor, and writes
the floor's description into a detail panel. Clicking the selected floor again
clears the selection, and every floor is shown again.

The model has four modules:

- `Layout` (Layout.dfy) holds the geometry the scene is built with. Floor `i`
  sits at height `3 * i`. Marker `k` of a floor is offset by `(k - 2) * 1.5`
  in x and `0.75` in y. Distances are exact `real`s.
- `Mouse` (Mouse.dfy) maps mouse pixels to device coordinates in
  [-1, 1] x [-1, 1], with the y axis flipped. It also proves the inverse map.
- `Selection` (Selection.dfy) holds the pure logic:
  - which floor a ray-cast result resolves to (`indexOf` over the floors);
  - the toggle rule `prev === index ? null : index`;
  - the detail text;
  - the `View` (the floor flags, the marker flags and the panel text) that
    the per-frame update derives from the selection alone;
  - lemmas about that view: floors shown, markers shown, and how many of each.
- `Scene` (Scene.dfy) holds the imperative part:
  - a `Mesh` class whose `position` and `visible` fields are written in place;
  - the construction of the meshes: `createFloor`, the `Array.from` loop
    that calls it once per floor (`CreateFloors`), and the loops of
    `createPointers`;
  - a `Building` class that owns the 7 floor meshes and 35 marker meshes and
    holds `selected` and the panel text. Its `Click` method is the click
    handler after the ray cast. Its `UpdateFlags` method is the nested loop
    that writes every `visible` flag; `UpdateVisibility` calls it and then
    writes the panel, proved to leave the scene showing
    `ViewOf(selected)`. Its `Frame` method is one pass of the animation loop.

The component re-runs its effect whenever the selection changes. Each run
tears the scene down and builds an identical one, and the selection itself
lives in React state. The model abstracts this as one persistent `Building`
whose `selected` field changes.

The ray cast is a library call, so `Click` takes its result as a parameter:
the sequence of meshes the ray hit, nearest first. The building proves its
meshes pairwise distinct with a ghost map `Role` that tells each mesh which
floor or marker it is. That distinctness is what lets `indexOf` and the
in-place writes be reasoned about.

## Model

| member | source | states |
|---|---|---|
| `Layout.FloorY` | src/Components/3D_scene.jsx:50 | floor `i` is built at height `i * 3`, never below the ground |
| `Layout.FloorPosition` | src/Components/3D_scene.jsx:41-50 | a floor slab is at its height, with x and z left at 0 |
| `Layout.MarkerOffset` | src/Components/3D_scene.jsx:68-69 | marker `k` is offset `(k - 2) * 1.5` in x and `0.75` in y |
| `Layout.MarkerPosition` | src/Components/3D_scene.jsx:67-69 | a marker is its floor's position moved by its offset; z is kept |
| `Layout.FloorsAscend` | src/Components/3D_scene.jsx:50 | higher index means strictly higher floor, exactly 3 units per index |
| `Layout.MarkersSymmetric` | src/Components/3D_scene.jsx:65-68 | markers `k` and `4 - k` sit at opposite x offsets; the middle one is centred |
| `Layout.MarkersDistinct` | src/Components/3D_scene.jsx:65-69 | the five markers of a floor are at five different places, within x offsets -3..3 |
| `Layout.MarkersOfFloorsDistinct` | src/Components/3D_scene.jsx:62-69 | markers of different floors never coincide |
| `Mouse.NormalizeX` | src/Components/3D_scene.jsx:85 | the left edge maps to -1, the right edge to 1, the middle to 0 |
| `Mouse.NormalizeY` | src/Components/3D_scene.jsx:86 | the top edge maps to +1 and the bottom edge to -1 (the y flip) |
| `Mouse.Normalize` | src/Components/3D_scene.jsx:82-86 | the mouse vector pairs the two maps; the window corners go to (-1, 1) and (1, -1) |
| `Mouse.PixelX` | src/Components/3D_scene.jsx:85 | the inverse column map sends -1 and 1 back to the window edges |
| `Mouse.PixelY` | src/Components/3D_scene.jsx:86 | the inverse row map sends 1 and -1 back to the window edges |
| `Mouse.NormalizeXRoundTrip` | src/Components/3D_scene.jsx:85 | normalising a column and mapping it back is the identity, both ways round |
| `Mouse.NormalizeYRoundTrip` | src/Components/3D_scene.jsx:86 | the same two round trips for rows |
| `Mouse.InsideWindowIffInsideSquare` | src/Components/3D_scene.jsx:85-86 | a click is inside the window if and only if its device point is in [-1, 1] on that axis |
| `Mouse.NormalizeMonotone` | src/Components/3D_scene.jsx:85-86 | x is strictly increasing; y is strictly decreasing |
| `Selection.Toggle` | src/Components/3D_scene.jsx:96 | the result is none exactly when the clicked floor was selected; otherwise the clicked floor |
| `Selection.IndexOf` | src/Components/3D_scene.jsx:93 | -1 exactly when the object is not among the floors; otherwise the position of its first occurrence |
| `Selection.PickedFloor` | src/Components/3D_scene.jsx:89-95 | a click resolves to a floor exactly when the nearest hit is a floor, and to that floor's index |
| `Selection.AfterClick` | src/Components/3D_scene.jsx:91-97 | a click changes the selection only when it resolves to a floor; the result is the old selection, the clicked floor or none; none only from none or by clicking the selected floor; the range 0..6 is kept |
| `Selection.ClickTransitions` | src/Components/3D_scene.jsx:91-97 | none to i, i to none, j to i for j != i, and a missed click leaves the selection unchanged |
| `Selection.ClickTwice` | src/Components/3D_scene.jsx:96 | two clicks on one floor return none and that floor to themselves; from another floor they end at none |
| `Selection.ClickKeepsRange` | src/Components/3D_scene.jsx:89-98 | a click never moves the selection outside 0..6; no hit, or a hit that is not a floor, changes nothing |
| `Selection.DetailText` | src/Components/3D_scene.jsx:129 | the text is empty if and only if nothing is selected; otherwise it is the selected floor's entry |
| `Selection.FloorDetails` | src/Components/3D_scene.jsx:11-22 | the panel texts, one per floor (7), no two alike |
| `Selection.DetailTextIdentifiesSelection` | src/Components/3D_scene.jsx:11-22 | different selections give different texts; index 3 gives "Fourth Floor Details" |
| `Selection.ViewOf` | src/Components/3D_scene.jsx:103-130 | the synchronised view has a flag for each of the 7 floors and each of their 5 markers |
| `Selection.FloorShown` | src/Components/3D_scene.jsx:105 | every floor is shown when nothing is selected, otherwise exactly the selected floor |
| `Selection.MarkersShown` | src/Components/3D_scene.jsx:122-124 | markers are shown only while a floor is selected and only on a shown floor; with a selection, exactly on the shown floor |
| `Selection.NothingSelectedShowsAll` | src/Components/3D_scene.jsx:104-124 | with nothing selected, all 7 floors are shown, all 35 markers are hidden and the panel is empty |
| `Selection.SelectionIsolatesFloor` | src/Components/3D_scene.jsx:104-129 | with floor i selected, i is the only shown floor, its 5 markers are shown, all others are hidden, and the panel shows its details |
| `Selection.ViewInvariant` | src/Components/3D_scene.jsx:104-124 | markers are shown only on a shown floor; the shown counts are 7 floors and 0 markers, or 1 floor and 5 markers |
| `Selection.ThirdFloorScenario` | src/Components/3D_scene.jsx:91-130 | from nothing selected, a click on floor 2 shows only floor 2, its 5 markers and "Third Floor Details"; a second click shows all 7 floors, no marker and an empty panel |
| `Scene.CreateFloor` | src/Components/3D_scene.jsx:41-48 | a new visible slab at the requested height |
| `Scene.CreateFloors` | src/Components/3D_scene.jsx:50 | seven new, distinct, visible slabs, slab i at height 3i |
| `Scene.CreatePointersOnFloor` | src/Components/3D_scene.jsx:63-75 | five new, distinct, hidden markers at the floor's position plus their offsets |
| `Scene.CreatePointers` | src/Components/3D_scene.jsx:58-79 | one list of five markers per floor, each at its floor's position plus its offset, all hidden and all distinct |
| `Scene.Building.constructor` | src/Components/3D_scene.jsx:41-79 | 7 floors and 35 distinct markers laid out as above; floors shown, markers hidden, nothing selected |
| `Scene.Building.Click` | src/Components/3D_scene.jsx:81-99 | the selection becomes the toggle of the resolved floor; it is unchanged when the click misses, and it stays in range |
| `Scene.Building.ShowsIffDisplays` | src/Components/3D_scene.jsx:103-130 | the meshes and panel show `ViewOf(sel)` exactly when every mesh's flag is the one its floor or marker role asks for and the panel holds `DetailText(sel)` |
| `Scene.Building.UpdateFlags` | src/Components/3D_scene.jsx:104-125 | afterwards every floor is shown exactly when nothing or it is selected, every marker exactly when its floor is selected; a flag that already had its value keeps it |
| `Scene.Building.UpdateVisibility` | src/Components/3D_scene.jsx:103-131 | afterwards the meshes and the panel show `ViewOf(selected)`; the selection is unchanged; a second call changes no flag |
| `Scene.Building.Frame` | src/Components/3D_scene.jsx:141-146 | one frame leaves the scene showing the view of the current selection |
| `Scene.Building.ClickThenFrame` | src/Components/3D_scene.jsx:81-146 | after a click and the next frame, the selection is the toggle of the resolved floor and the panel holds its detail text |
| `Scene.Building.PickOfFloorIsItsIndex` | src/Components/3D_scene.jsx:91-95 | a ray whose nearest hit is floor `i` resolves to index `i`, because the floor meshes are distinct |
| `Scene.ClickSameFloorTwice` | src/Components/3D_scene.jsx:81-130 | on a new building, click floor 2 and draw: the panel reads "Third Floor Details"; click it again and draw: the panel is empty |

## Left out

- The Three.js scene, camera, renderer, grid helper, lights, materials and box geometries (src/Components/3D_scene.jsx:25-39, 42-43, 52-56, 59-60) are foreign library objects with no logic of their own. A `Mesh` keeps only `position` and `visible`.
- The ray cast (`raycaster.setFromCamera`, `intersectObjects`, src/Components/3D_scene.jsx:88-89) is floating-point geometry inside the library. `Click` takes its result, the meshes hit nearest first, as a parameter. That the ray hits the floor under the mouse is not modelled.
- The rotation tween (src/Components/3D_scene.jsx:106-120) and `TWEEN.update()` (src/Components/3D_scene.jsx:143) are not modelled. They are time-driven floating-point interpolation in a global library. Every frame, each shown floor is given a new tween towards a rotation of pi/2 over 300 ms with quadratic in-out easing.
- Window resize handling (src/Components/3D_scene.jsx:133-139) is not modelled: it is camera and canvas plumbing.
- The `requestAnimationFrame` loop and rendering (src/Components/3D_scene.jsx:141-148) are host scheduling. `Frame` models the visibility step of one pass.
- React state, hooks, listener registration and teardown, and the JSX layout (src/Components/3D_scene.jsx:1-24, 101, 150-171) are UI lifecycle. Three simplifications follow:
  - `setSelectedFloor` is modelled as an immediate update.
  - The rebuild of the scene on every selection change is modelled as one persistent building.
  - The cleanup removes the listeners and the canvas but does not cancel the animation loop of the previous run. Loops from earlier runs therefore keep writing the panel with their own, older selection. The newest loop runs last in each frame, so the panel ends each frame with the current text. These older loops are not modelled.
- The panel element always exists once the component is mounted, so `UpdateVisibility` always writes the text. The `if (floorDetailsDiv)` guard (src/Components/3D_scene.jsx:128) is not modelled.
- DetailText: requires the selection to be in range. The component would show `undefined` for an index outside 0..6, which cannot happen because `Click` keeps the selection in range.
- NormalizeX: requires a window width above 0, and NormalizeY a height above 0. A window with no area receives no clicks. The JavaScript result of dividing by zero (Infinity or NaN) is not modelled.
- ClickThenFrame: states the selection and the panel text but not the mesh flags; `Frame` states the flags after every frame.
- ClickSameFloorTwice: states the two panel texts only; the floor and marker flags of the same two clicks are stated on the view by `Selection.ThirdFloorScenario`, and `Frame` ties the meshes to that view.
- Numbers are exact `real`s. JavaScript doubles represent the layout constants exactly, but the normalisation divisions round, and that rounding is not modelled.
- src/App.js is a routing shell that mounts the component; it is not part of this model.
