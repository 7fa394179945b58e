# MapaInteractivo bookkeeping, modelled in Dafny

`MapaInteractivo` (src/index.js) is a React component that shows an image-tiled Leaflet map
with categorised markers and a collapsible side menu. Apart from Leaflet and JSX set-up, the
component keeps a small amount of state of its own, and that state is what this project
models and proves things about:

- **the marker index** (`markers`): `fetchData` runs `createMarker` over the records of the
  data file into a fresh object keyed by `popupText.title`, each value being
  `{marker, group, iconNum}`. Each marker is added to the layer group `Icons[group]` of one of
  seven fixed categories; a group outside `Icons` makes that addition throw, the exception is
  caught, and `markers` is left as it was. Only a load that runs to its end is published. A
  repeated title overwrites the earlier value and keeps the key's place.
- **the menu**: the seven groups of `Icons` in declaration order, each followed, when
  expanded, by the titles whose value has that group (`Object.keys(markers).filter(...)`).
- **the menu expansion state** (`menuDesplegado`): a boolean at first and after the hamburger
  toggle (`!menuDesplegado`), an object of per-group flags once an arrow is clicked
  (`{...prev, [group]: !prev[group]}`).
- **the pin** (`markerRef.current`): a map click removes the pin if there is one and otherwise
  drops one at the clicked point.
- **the map events**: `baselayerchange` sets `selectedMap`, whose effect colours the map
  container for the two known styles only; `overlayadd` sets `activeGroup` to the layer's
  `options.name`; `overlayremove` sets it to `null`.

Modules:

| file | module | contents |
|---|---|---|
| options.dfy | `Options` | `Option`, for `null`/`undefined` and lookups that may miss |
| groups.dfy | `Groups` | the seven groups, their `Icons` keys, their order, `Icons[s]` as `Lookup` |
| surface.dfy | `Surface` | opaque marker handles, points, the layer groups' contents |
| markers.dfy | `Markers` | the index as an ordered JavaScript object, one `createMarker` call (`Step`), the loading loop as a fold (`Run`), the object filled in place (`MarkersObject`) and the lemmas about loading |
| menu.dfy | `Menu` | the expansion state and its two updates, the title filter, the rendered tree, leaf counting |
| interaction.dfy | `Interaction` | the pin toggle, the style colour, the highlight test |
| component.dfy | `Component` | the class `MapaInteractivo` whose fields are the component's state and whose methods are its handlers |

The handlers that change state in place are methods of `Component.MapaInteractivo`; each is
specified against the pure function in the other modules that states what one call does,
and the lemmas there say what the source relies on. The loading loop of `FetchData` carries
the invariant that what remains of the fold equals the fold over the whole input.

Some consequences of the code that a reader might not expect, and that the model keeps:

- one might expect a record with an unknown group to be skipped while the rest load; instead
  the exception ends the whole load, `markers` keeps its earlier value, and the markers already
  drawn stay on their layer groups (`Markers.RunThrowsIffUnknownGroup`,
  `Component.MapaInteractivo.FetchData`);
- one might expect a repeated title to replace the earlier marker on the map; instead the
  earlier marker stays on its layer group while the index forgets it
  (`Markers.RunPlacesEveryMarker`);
- one might expect opening the popup of a title that is not a key to do nothing; instead
  `markers[title]` is dereferenced unguarded, so the model requires the title to be a key
  (`Component.MapaInteractivo.ActivatePopup`), and `Menu.ListedTitleIsKey` shows that every
  title the menu offers is one;
- one might expect the titles of a shown overlay to be highlighted; instead the layer groups
  are created without options, so `overlayadd` stores `undefined` and `activeGroup` never
  matches a group (`Interaction.IconsOverlayHighlightsNothing`,
  `Component.MapaInteractivo.OnOverlayAdd`).

## Model

| member | source | states |
|---|---|---|
| Groups.Lookup | src/index.js:20-28 | `Icons[s]` finds a group exactly when `s` is one of the seven keys, and the group found is the one named `s` |
| Groups.OrderListsEveryGroupOnce | src/index.js:285 | the menu's top level lists seven groups, named by the keys of `Icons` in declaration order, each exactly once |
| Surface.AddTo | src/index.js:145-146 | adding a marker to `Icons[g]` adds it to the layer group of `g` and leaves every other group's layer unchanged |
| Markers.Put | src/index.js:160-164 | storing a value under a title makes the title hold it, keeps every other key and value, keeps the key order on overwrite and appends a new key |
| Markers.PutKeepsWellFormed | src/index.js:160-164 | storing a value keeps each key listed once and the listed keys exactly those with a value |
| Markers.Step | src/index.js:145-164 | one `createMarker` call draws the marker numbered by the counter and advances the counter; it throws exactly when the group is not in `Icons`, then changing nothing else; otherwise it stores `{marker, group, iconNum}` under the title and adds the marker to the group's layer |
| Markers.StepKeepsLayers | src/index.js:145-146 | one call never removes a marker from a layer group, and keeps every indexed marker on its group's layer |
| Markers.Run | src/index.js:36-45 | the `forEach` draws one marker per record when it runs to its end, and when it throws, at least one and at most one per record |
| Markers.RunKeepsWellFormed | src/index.js:36-45 | the loading loop keeps every title listed once |
| Markers.RunThrowsIffUnknownGroup | src/index.js:36-48 | the loading loop runs to its end if and only if every record names one of the seven groups |
| Markers.RunLeavesOtherTitles | src/index.js:160-164 | a title that no record carries keeps its presence and its value |
| Markers.RunLastRecordWins | src/index.js:160-164 | after a completed load a title holds the marker, group and icon number of the last record carrying it |
| Markers.RunKeys | src/index.js:36-45 | after a completed load the keys are the earlier keys plus the titles of the records |
| Markers.RunKeepsLayers | src/index.js:145-146 | whether or not the load throws, the layer groups only gain markers, and indexed markers stay on their group's layer |
| Markers.RunPlacesEveryMarker | src/index.js:145-164 | after a completed load the marker drawn for every record, including one whose title was overwritten, is on its group's layer |
| Markers.RunDrawsFreshMarkers | src/index.js:145-146 | every marker a load adds to a layer group is numbered between the counter before and after the load, so it is new |
| Markers.RunKeysAppendTitles | src/index.js:160-164 | a completed load leaves the keys in first-insertion order: a title already present keeps its place, a new one is appended |
| Markers.AppendedFirstSeenOrder | src/index.js:160-164 | of two titles new to the object, the one first carried by an earlier record is the earlier key |
| Markers.RunFirstSeenOrder | src/index.js:36-45 | `Object.keys` of a loaded object lists new titles in the order the data first carries them |
| Markers.LoadedKeys | src/index.js:35-46 | a completed load from `{}` has exactly the distinct titles of the data as keys, each once |
| Markers.MarkersObject.constructor | src/index.js:35 | `newMarkers` starts as the empty object |
| Markers.MarkersObject.Set | src/index.js:160-164 | assigning under a title in place gives the object `Put` describes |
| Menu.Visible | src/index.js:283 | the `visible` class: any object shows the menu, the initial `false` hides it |
| Menu.Expanded | src/index.js:323 | `menuDesplegado[group]`: a group can only be expanded in a shown menu, and a boolean expands no group |
| Menu.Toggle | src/index.js:255-257 | the hamburger always yields a boolean, inverts visibility, turns any object into `false`, and leaves no group expanded |
| Menu.ArrowClick | src/index.js:302-305 | an arrow click flips the expansion of its own group only, always yields an object (so the menu is visible), and from a boolean expands that group alone |
| Menu.Children | src/index.js:325-327 | a title is listed under `g` exactly when it is a key whose value has group `g`; no title is listed twice |
| Menu.ChildrenKeepKeyOrder | src/index.js:325-327 | the titles under a group come in the order of `Object.keys(markers)` |
| Menu.Tree | src/index.js:283-327 | the menu has one node per `Icons` key in declaration order, whatever the data; an expanded node lists exactly its group's titles, a collapsed one none |
| Menu.LeafCount | src/index.js:325-327 | the seven groups' filters together keep as many titles as there are keys |
| Menu.ExpandedMenuListsEveryKey | src/index.js:285-327 | with every group expanded the rendered menu's nodes list as many titles as there are keys |
| Menu.TitleUnderOneGroup | src/index.js:325-327 | each title is listed under exactly one group, its own |
| Menu.LoadedLeafCount | src/index.js:285-327 | after a completed load the fully expanded rendered menu lists as many titles as the data has distinct titles |
| Menu.LoadedTitleParent | src/index.js:325-327 | after a completed load a title is listed under the group of its last record and under no other |
| Menu.ListedTitleIsKey | src/index.js:330 | every title the menu lists is a key of `markers`, so clicking it reaches a value |
| Interaction.PinMarkers | src/index.js:185-196 | the pin places at most one marker straight on the map |
| Interaction.Click | src/index.js:185-202 | a click removes a present pin, and with none drops exactly one pin, the marker numbered by the counter, at the clicked point |
| Interaction.ClicksAlternate | src/index.js:185-202 | from no pin, an odd number of clicks leaves one pin at the last clicked point and an even number leaves none |
| Interaction.StyleColour | src/index.js:242-246 | only the two base style names have a colour |
| Interaction.Background | src/index.js:239-248 | a known style sets the colour that identifies it; any other name keeps the current colour |
| Interaction.UnknownStylesKeepColour | src/index.js:242-246 | a run of names that are not styles never changes the colour |
| Interaction.LastStyleSetsColour | src/index.js:221-248 | after a run of base-layer changes the colour is that of the last known style among them |
| Interaction.Highlighted | src/index.js:331 | `activeGroup === group`: only a key of `Icons` highlights, and only its own group |
| Interaction.IconsOverlayHighlightsNothing | src/index.js:225-227 | `overlayadd` on a layer group of `Icons` leaves no group's titles marked active |
| Component.MapaInteractivo.constructor | src/index.js:13-18 | after mounting: empty index, `activeGroup` null, menu hidden, Atlas style and its colour, no pin |
| Component.MapaInteractivo.CreateMarker | src/index.js:101-165 | the in-place call does what `Step` describes to the object, the layer groups and the marker counter |
| Component.MapaInteractivo.FetchData | src/index.js:31-50 | no response changes nothing; otherwise the layers follow the fold, and `markers` becomes the new object only when no record threw; the index stays well formed and on its layers, and every marker drawn stays below the counter |
| Component.MapaInteractivo.AddMarker | src/index.js:183-203 | the pin follows `Click`, a marker is drawn only on a drop, a dropped pin is a marker on no layer group, and the map holds at most the pin |
| Component.MapaInteractivo.OnBaseLayerChange | src/index.js:221-223 | `selectedMap` becomes the event's name and the colour follows `Background` |
| Component.MapaInteractivo.OnOverlayAdd | src/index.js:225-227 | `activeGroup` becomes the added layer's `options.name`; for a layer group of `Icons` no group is highlighted afterwards |
| Component.MapaInteractivo.OnOverlayRemove | src/index.js:229-231 | `activeGroup` becomes null whichever layer was removed |
| Component.MapaInteractivo.ActivatePopup | src/index.js:250-253 | for a title that is a key, the popup opened is that title's marker, which sits on its group's layer |
| Component.MapaInteractivo.ToggleMenu | src/index.js:255-257 | the menu state becomes `Toggle` of the old one |
| Component.MapaInteractivo.ClickArrow | src/index.js:301-306 | the menu state becomes `ArrowClick` of the old one for that group |

## Left out

- The custom coordinate reference system and its `scale`/`zoom` functions (src/index.js:54-75): floating-point arithmetic handed to Leaflet.
- Tile-layer configuration, map and layers-control construction, the zoom control and the effect's clean-up `map.remove()` (src/index.js:77-99, 167-181, 204-219, 233-235): Leaflet set-up with no state of the component's own.
- The fetch and JSON parsing (src/index.js:33-34): network I/O. `FetchData` takes the parsed records, or `None` when the fetch or the parse failed; its asynchrony and the console logging are not modelled.
- Record fields other than `group`, `iconNum` and `popupText.title`, and the markers' coordinates: they reach only Leaflet and the popup markup.
- Other ways a `createMarker` call can throw (a record without `popupText` or `images`, coordinates Leaflet rejects): only the unknown group is modelled as a failure.
- Icons, popup markup, `renderToStaticMarkup`, the hover tooltip handlers and the pin's `toFixed(2)` popup text (src/index.js:109-158, 189-201): presentation and foreign calls.
- Leaflet's `openPopup` (src/index.js:252) and `map.removeLayer`: `ActivatePopup` returns the marker whose popup opens, and the pin's removal is the removal of its handle from the markers on the map.
- Which overlays Leaflet shows at a given time: that is the layers control's state, not the component's.
- All JSX rendering and DOM writes beyond the container's background colour (src/index.js:259-360).
- React's skipping of a state update that sets the same value: `OnBaseLayerChange` always recomputes the colour, which gives the same result in that case.
- `null` and `undefined` for `activeGroup` are both `None`.
- Titles that are JavaScript property-name special cases: a title that looks like an array index is listed first by `Object.keys`, and assigning under `__proto__` sets the object's prototype instead of adding a key, so `Object.keys` never lists it. The model treats every title as an ordinary key and assumes no title is either.
