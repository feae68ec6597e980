# horti-ui garden editor, plant roster and plant edit dialog

A Dafny model of three React components of the horti-ui front end:

- **GardenCanvas** — a garden drawn on an 800 by 600 surface (the size is a
  parameter). Each plant is a circle of radius 25 with a 50-pixel grid
  behind it. A press on a plant arms a possible drag. Moving the pointer
  more than 5 pixels from the press point turns it into a drag. While
  dragging, the plant follows the pointer, clamped so that its circle stays
  on the surface. Releasing commits the position with a PUT. A failed PUT
  refetches the plants from the backend. A press that never travelled far
  enough is a click: it selects the plant and opens its metrics dialog. A
  click on empty space opens the "add plant" dialog at that point.
- **PlantList** — the roster. Plants are grouped under the name of their
  garden, with "Unassigned Plants" as the fallback. Each group carries a
  count badge ("1 plant", "2 plants"). Deleting a plant requires typing its
  name exactly.
- **PlantEditModal** — the dialog that edits a plant's name and emoji. The
  name is trimmed. Save checks the name first, then the emoji. Both fields
  show inline errors. The PUT's outcome decides whether the parent's
  `onUpdate` and `onClose` are called.

Each component's state is a `class` whose fields are the component's
`useState` variables. Each event handler is a `method` that reads the state
as it was when the event arrived and writes the new state. This is React's
semantics: state setters take effect at the next render. So in
`handleMouseMove` the move that crosses the threshold starts the drag but
does not yet move the plant.

Network requests are not performed. Their outcome is a parameter of the
handler:

- `Response`: `Ok`, `NotOk` (a non-2xx status) or `Threw` (fetch rejected).
- `FetchResult`: the same for a refetch, with the list that arrived.

Pointer positions are integer pixel coordinates.

Files:

- `common.dfy`: `Option`, `Response`, `FetchResult`.
- `geometry.dfy`: points, squared distance, the clamp.
- `garden_canvas.dfy`: hit test, moves, the scene, grid lines, the `GardenEditor` class.
- `garden_scenarios.dfy`: concrete gestures on a sample garden, followed through the editor's contracts alone. These methods carry no contracts of their own.
- `plant_list.dfy`: grouping, badge, delete gating, the `PlantListView` class.
- `plant_edit_modal.dfy`: `String.prototype.trim`, validation, the `EditModal` class.

## Model

| member | source | states |
|---|---|---|
| Geometry.Clamp | horti-ui/src/components/GardenCanvas.js:285-286 | `max(25, min(size-25, v))`: never below 25; at most size-25 when the surface is at least 50 wide; a value inside both margins is kept; a value below the margin goes to 25; a value past the far margin goes to max(25, size-25); the result is the admissible value nearest to v |
| Geometry.ClampPoint | horti-ui/src/components/GardenCanvas.js:307-308 | The clamped drop point lies inside both margins, on each axis where the surface is wide or tall enough |
| Geometry.ClampPointKeepsInBounds | horti-ui/src/components/GardenCanvas.js:285-286 | A drop point whose circle already lies on the surface is not moved by the clamp |
| Geometry.ClampPointInBounds | horti-ui/src/components/GardenCanvas.js:307-308 | On a surface of at least 50 by 50, every clamped point keeps its whole circle on the surface, and clamping is idempotent |
| Geometry.ClampOnNarrowCanvas | horti-ui/src/components/GardenCanvas.js:285-286 | On a surface narrower than two radii, `max` wins and the plant is pinned at 25 |
| GardenCanvas.FindPlantAtPosition | horti-ui/src/components/GardenCanvas.js:209-214 | `plants.find`: none exactly when no plant is within distance 25 (boundary included); otherwise the earliest plant that is within it |
| GardenCanvas.FirstCoveringPlantWins | horti-ui/src/components/GardenCanvas.js:209-214 | Of overlapping plants, the pointer picks the first in list order |
| GardenCanvas.MovePlant | horti-ui/src/components/GardenCanvas.js:229-233 | Same length and order. Every plant keeps its id, name and kind. Plants with other ids are untouched, and the plant with the given id is at the new point |
| GardenCanvas.LastMoveWins | horti-ui/src/components/GardenCanvas.js:289-293 | Two moves of one plant equal the last one, so the committed position overrides the live drag moves |
| GardenCanvas.MovedPlantIsUnderPointer | horti-ui/src/components/GardenCanvas.js:229-233 | After a plant is moved to a point, the hit test at that point finds a plant |
| GardenCanvas.SceneDrawsPositionedPlants | horti-ui/src/components/GardenCanvas.js:155-191 | One circle per plant with both coordinates, in list order, at the plant's position |
| GardenCanvas.PositionedMembers | horti-ui/src/components/GardenCanvas.js:156 | A plant is drawn if and only if it has both coordinates |
| GardenCanvas.PositionedDistinct | horti-ui/src/components/GardenCanvas.js:155-156 | Skipping unplaced plants keeps distinct ids distinct |
| GardenCanvas.AtMostOneHighlighted | horti-ui/src/components/GardenCanvas.js:158-168 | With distinct ids, at most one circle is drawn as dragged (blue) and at most one as selected (orange) |
| GardenCanvas.MarkerPrecedence | horti-ui/src/components/GardenCanvas.js:158-168 | A circle is blue exactly for the dragged plant, orange exactly for the selected plant when it is not also the dragged one, and green otherwise: dragging outranks selection |
| GardenCanvas.DrawPlants | horti-ui/src/components/GardenCanvas.js:155-191 | The loop produces exactly the scene function's circles |
| GardenCanvas.GridLines | horti-ui/src/components/GardenCanvas.js:141-152 | Lines at 0, 50, 100, … up to and including the size: size/50 + 1 lines, none for a negative size |
| GardenCanvas.GardenEditor.constructor | horti-ui/src/components/GardenCanvas.js:27-52 | Initial state: no error, nothing selected or open, no gesture, press point and offset at the origin, empty add form |
| GardenCanvas.GardenEditor.FetchPlants | horti-ui/src/components/GardenCanvas.js:103-118 | Success replaces the list and keeps the error. A non-ok response or a thrown fetch keeps the list and sets its message |
| GardenCanvas.GardenEditor.UpdatePlantPosition | horti-ui/src/components/GardenCanvas.js:216-243 | Only an ok PUT moves the plant locally. Otherwise the PUT's error is set and the list is refetched; a failed refetch overwrites that error with its own |
| GardenCanvas.GardenEditor.HandleMouseDown | horti-ui/src/components/GardenCanvas.js:245-262 | A press on a plant records the plant, the press point and the pointer's offset from the plant's centre, arming the gesture from idle; a press on empty space changes nothing |
| GardenCanvas.GardenEditor.HandleMouseMove | horti-ui/src/components/GardenCanvas.js:264-299 | Idle: nothing changes. Armed within 5 px: nothing changes. Armed beyond 5 px: dragging starts but the plant does not move yet. Dragging: the dragged plant is placed at the clamped pointer position and nothing else moves |
| GardenCanvas.GardenEditor.HandleMouseUp | horti-ui/src/components/GardenCanvas.js:301-326 | Always ends idle with all drag state reset. A drag commits the clamped release point, with each PUT and refetch outcome. An armed press selects its plant and opens metrics without moving anything. Idle changes nothing else |
| GardenCanvas.GardenEditor.HandleCanvasClick | horti-ui/src/components/GardenCanvas.js:328-341 | Only while idle, and only on empty space: the add form takes the click point and the dialog opens. Otherwise nothing changes |
| GardenCanvas.GardenEditor.HandleAddPlant | horti-ui/src/components/GardenCanvas.js:343-372 | A missing type or name sends nothing and changes nothing. An ok POST closes the dialog, clears the form and refetches. A failure keeps the form open and sets its message |
| GardenCanvas.GardenEditor.Draw | horti-ui/src/components/GardenCanvas.js:128-192 | The grid columns and rows for the surface size, and the scene of the current plants with the dragged and selected highlights |
| PlantList.GardenMapKeys | horti-ui/src/components/PlantList.js:90-93 | The id-to-name map has exactly the listed ids as keys |
| PlantList.GardenMapLastWins | horti-ui/src/components/PlantList.js:90-93 | When ids repeat, the last canvas with an id gives its name |
| PlantList.GardenKeyFallback | horti-ui/src/components/PlantList.js:96 | The key is `canvasId` when it is truthy, else `canvas-id` when that is truthy, else 'unassigned'; a key that is an id is never 0 |
| PlantList.GardenNameFallback | horti-ui/src/components/PlantList.js:97 | No key, a key no listed garden has, or an empty garden name gives "Unassigned Plants"; otherwise the garden's name; a group name is never empty |
| PlantList.MembersAre | horti-ui/src/components/PlantList.js:95-104 | A plant is in the group of a name exactly when it is listed and its group name is that name |
| PlantList.MembersKeepOrder | horti-ui/src/components/PlantList.js:102 | A group holds its plants in list order, as an increasing selection of list indices |
| PlantList.NamesOfAre | horti-ui/src/components/PlantList.js:96-97 | The group names are exactly the names some plant resolves to |
| PlantList.MembersOfAbsentName | horti-ui/src/components/PlantList.js:99-101 | A name no plant resolves to has no members, so the first plant of a name creates its group |
| PlantList.FirstFrom | horti-ui/src/components/PlantList.js:95-104 | The first plant from a given index on that is listed under a name: every plant from that index up to it is listed under another name, and it is listed under that name unless none is |
| PlantList.FirstIndexOfNewName | horti-ui/src/components/PlantList.js:99-101 | A plant whose group name no earlier plant has is the first plant of its group, the one that creates the group |
| PlantList.GroupPlantsByGarden | horti-ui/src/components/PlantList.js:89-107 | Keys are the names that occur. Each group is exactly its plants in list order. Group names are listed once each, in the order in which their first plants occur in the list, which is the insertion order of the result object. The group sizes sum to the number of plants |
| PlantList.EachPlantInOneGroup | horti-ui/src/components/PlantList.js:95-104 | Every plant is in the group of its own name and in no other |
| PlantList.SameNameSameGroup | horti-ui/src/components/PlantList.js:97-102 | Plants whose gardens have the same name share a group, whatever the garden ids |
| PlantList.GroupAsWritten | horti-ui/src/components/PlantList.js:95-104 | The reduce over an object literal throws exactly when some group name is an `Object.prototype` property; otherwise it gives the intended groups |
| PlantList.ConstructorGardenBreaksGrouping | horti-ui/src/components/PlantList.js:99-102 | A plant in a garden named "constructor" makes the as-written grouping throw, where the intended grouping lists it |
| PlantList.Decimal | horti-ui/src/components/PlantList.js:253 | The rendered count is a non-empty string of decimal digits |
| PlantList.DecimalRoundTrip | horti-ui/src/components/PlantList.js:253 | The rendered count reads back as the number |
| PlantList.BadgePlural | horti-ui/src/components/PlantList.js:253 | The badge is exactly the count, then " plant", then "s" when the count is not 1, and nothing more |
| PlantList.BadgeExamples | horti-ui/src/components/__tests__/PlantList.test.js:195-196 | "1 plant", "2 plants", "12 plants" |
| PlantList.ButtonMatchesHandler | horti-ui/src/components/PlantList.js:357 | The Delete button is disabled exactly when the handler would refuse |
| PlantList.PlantListView.constructor | horti-ui/src/components/PlantList.js:25-34 | Initial state: no error, delete dialog closed, no plant chosen, empty confirmation text |
| PlantList.PlantListView.FetchPlants | horti-ui/src/components/PlantList.js:43-60 | Success replaces the plants; failure keeps them and sets its message |
| PlantList.PlantListView.FetchCanvases | horti-ui/src/components/PlantList.js:62-79 | Success replaces the gardens; failure keeps them and sets its message |
| PlantList.PlantListView.OpenDeleteModal | horti-ui/src/components/PlantList.js:159-163 | Chooses the plant, clears the text, opens the dialog; deletion is refused until the name is typed, unless the name is empty |
| PlantList.PlantListView.SetConfirmPlantName | horti-ui/src/components/PlantList.js:348 | The confirmation text is what was typed |
| PlantList.PlantListView.CloseDeleteModal | horti-ui/src/components/PlantList.js:351 | Cancel only closes the dialog |
| PlantList.PlantListView.HandleDeletePlant | horti-ui/src/components/PlantList.js:132-157 | A DELETE is sent exactly when a plant is chosen and the text equals its name, and it is for that plant's id. A refusal sets the mismatch message and nothing else. An ok response closes and resets the dialog and refetches. A failure sets its message only |
| PlantEditModal.SkipStart | horti-ui/src/components/PlantEditModal.js:62 | The first index from i that is not white space; everything skipped is white space |
| PlantEditModal.SkipEnd | horti-ui/src/components/PlantEditModal.js:62 | The end of the text before j, not below lo; everything skipped is white space |
| PlantEditModal.TrimIsSlice | horti-ui/src/components/PlantEditModal.js:62 | `trim()` is a slice with only white space cut off either end; a non-empty result starts and ends with a non-space |
| PlantEditModal.TrimEmptyIffAllWhitespace | horti-ui/src/components/PlantEditModal.js:41 | `trim()` is empty (falsy) exactly when the string is all white space |
| PlantEditModal.TrimIdempotent | horti-ui/src/components/PlantEditModal.js:62 | Trimming twice is trimming once |
| PlantEditModal.SaveCheckMessages | horti-ui/src/components/PlantEditModal.js:41-49 | "Plant name is required" exactly for an all-white-space name. "Plant emoji is required" exactly for a good name with no emoji. No message exactly when the form is valid |
| PlantEditModal.SaveEnabledIffChecksPass | horti-ui/src/components/PlantEditModal.js:85-135 | Save is enabled exactly when Save's own checks pass and no save is in flight |
| PlantEditModal.NameErrorIffBlank | horti-ui/src/components/PlantEditModal.js:107 | The name's inline error shows exactly for a non-empty all-white-space name, and then Save reports the name |
| PlantEditModal.EmojiErrorBlocksSave | horti-ui/src/components/PlantEditModal.js:122 | A missing emoji blocks Save; Save reports it when the name is fine |
| PlantEditModal.RequestBodyIsTrimmed | horti-ui/src/components/PlantEditModal.js:61-64 | The body keeps the emoji and sends the name with white space cut off either end; for a valid form, non-empty with non-space ends |
| PlantEditModal.EditModal.constructor | horti-ui/src/components/PlantEditModal.js:15-38 | Not loading, no error, and the form taken from the plant (empty without one) |
| PlantEditModal.EditModal.PlantChanged | horti-ui/src/components/PlantEditModal.js:30-38 | A new plant resets the form to its values and clears the error; a null plant leaves both as they were |
| PlantEditModal.EditModal.SetName | horti-ui/src/components/PlantEditModal.js:106 | Only the name changes |
| PlantEditModal.EditModal.SetEmoji | horti-ui/src/components/PlantEditModal.js:115 | Only the emoji changes; a cleared picker gives the empty string |
| PlantEditModal.EditModal.HandleSave | horti-ui/src/components/PlantEditModal.js:40-78 | A failed check sets its message and sends nothing. Otherwise: without a plant, the `plant.id` read throws and sets "Error updating plant"; with a plant, the trimmed body goes to its id. Only an ok response calls `onUpdate` and `onClose`. Each failure sets its message. Loading ends false |
| PlantEditModal.EditModal.HandleClose | horti-ui/src/components/PlantEditModal.js:80-83 | Clears the error and closes |

## Left out

- Network I/O: `fetch`, headers, tokens and JSON bodies. Each request's outcome is a handler parameter.
- Concurrency of the awaited requests: each handler runs to completion atomically. Events arriving during the awaited PUT of `handleMouseUp`, and the parallel `Promise.all` of the roster, are not modelled.
- `getMousePos` and fractional pointer coordinates: positions are integer pixels, and distances are compared squared, which is exact on integers.
- Plant coordinates that are `null` rather than absent: the model treats a coordinate as present or `undefined`.
- The canvas's touch bindings (`onTouchStart`, `onTouchMove`, `onTouchEnd` at GardenCanvas.js:473-475): they call the mouse handlers with a touch event, whose missing `clientX`/`clientY` gives `NaN` coordinates through `getMousePos`. Only pointer events with integer coordinates are modelled.
- Cursor styles, colours as strings, fonts, the dashed ring's geometry, and all rendering other than which circles are drawn, in which state and where.
- The `loading` flags of GardenCanvas and PlantList, and `fetchCanvasInfo` with the canvas-size default: the surface size is a constructor parameter.
- The `!canvasId` branches of `fetchPlants` and `handleAddPlant` in GardenCanvas: the editor is modelled for an open canvas.
- The metrics dialog, `handleAddMetrics` and the metrics viewer. Only opening the metrics dialog on a click is modelled.
- The type `Select` and the typed fields of the add-plant dialog. The form is modelled by its type, name and position.
- GardenCanvas.GardenEditor.HandleAddPlant: the POST body's planting date comes from the clock and is not modelled.
- PlantList's `handleAddPlant`, `openEditModal` and `handlePlantUpdated`: they only forward to a request or to the edit dialog.
- The on-screen order of roster groups whose names look like integers: `Object.entries` lists such keys first, in numeric order. `order` in GroupPlantsByGarden is first-occurrence (insertion) order, which is the on-screen order for every other name.
- App, Login, Dashboard, GardenManager, GardenLogs and MetricsViewer are not part of this model.
- Geometry.DistSq: it has no contract of its own. Its meaning, comparing squared distances instead of square roots, is used through Hits and BeyondThreshold.

## Findings

| source | as written | input that shows it | evidently intended | confidence | as-written member | corrected member |
|---|---|---|---|---|---|---|
| horti-ui/src/components/PlantList.js:95-104 | The groups are accumulated in an object literal `{}`. A garden name that is an `Object.prototype` property (`constructor`, `toString`, …) is already truthy on it, so no array is created and `acc[gardenName].push` throws a TypeError during render | one plant with `canvasId: 1` and a canvas `{id: 1, name: "constructor"}` | every plant is listed under its garden's name, whatever the name (e.g. accumulate in `Object.create(null)` or a `Map`) | not executed | PlantList.GroupAsWritten, PlantList.ConstructorGardenBreaksGrouping | PlantList.GroupPlantsByGarden |
