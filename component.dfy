/**
 * The `MapaInteractivo` component as one object: its React state (`markers`, `activeGroup`,
 * `menuDesplegado`, `selectedMap`), its refs (`markerRef`, the map container's background),
 * the contents of the seven layer groups of `Icons`, and the event handlers that update them.
 */
module Component {
  import opened Options
  import opened Groups
  import opened Surface
  import opened Markers
  import opened Menu
  import opened Interaction

  class MapaInteractivo {
    /** `markers`: the index published by the last load that ran to its end. */
    var markers: Table
    /** `activeGroup`; `null` and `undefined` are both `None`. */
    var activeGroup: Option<string>
    /** `menuDesplegado` */
    var menu: MenuState
    /** `selectedMap` */
    var selectedMap: string
    /** `mapRef.current.style.backgroundColor` */
    var background: string
    /** The markers added to each layer group of `Icons`. */
    var layers: Layers
    /** `markerRef.current`: the dropped pin, if any. */
    var pin: Option<Pin>
    /** The markers added straight to the map rather than to a layer group. */
    var onMap: set<Handle>
    /** The identity the next `L.marker(...)` receives. */
    var nextHandle: Handle

    /**
     * Each title is listed once and each indexed marker sits on its group's layer; the only
     * marker placed straight on the map is the pin, so there is at most one; every marker
     * drawn so far, on a layer or on the map, was numbered below the counter, so the next
     * marker drawn is a fresh one.
     */
    ghost predicate Valid()
      reads this
    {
      && WellFormed(markers)
      && OnLayers(markers, layers)
      && onMap == PinMarkers(pin)
      && (forall q :: q in layers ==> q.1 < nextHandle)
      && (forall h :: h in onMap ==> h < nextHandle)
    }

    /** The component once mounted: nothing loaded, menu hidden, Atlas style and its colour. */
    constructor ()
      ensures Valid()
      ensures markers == Empty && activeGroup == None && menu == Initial
      ensures selectedMap == AtlasStyle && background == AtlasColour
      ensures layers == {} && pin == None && onMap == {} && nextHandle == 0
    {
      markers := Empty;
      activeGroup := None;
      menu := Initial;
      selectedMap := AtlasStyle;
      background := AtlasColour;
      layers := {};
      pin := None;
      onMap := {};
      nextHandle := 0;
    }

    /**
     * `createMarker`: draws a marker, adds it to `Icons[group]` (which throws for a group
     * outside `Icons`), then stores `{marker, group, iconNum}` under the title.
     */
    method CreateMarker(r: Record, markersObject: MarkersObject) returns (ok: bool)
      requires markersObject.Valid()
      modifies this`layers, this`nextHandle, markersObject
      ensures markersObject.Valid()
      ensures Step(Progress(old(markersObject.Value()), old(layers), old(nextHandle)), r)
              == if ok then Completed(Progress(markersObject.Value(), layers, nextHandle))
                 else Threw(Progress(markersObject.Value(), layers, nextHandle))
    {
      var marker := nextHandle;
      nextHandle := nextHandle + 1;
      var group := Lookup(r.group);
      if group.None? {
        return false;
      }
      layers := AddTo(layers, group.value, marker);
      markersObject.Set(r.title, Entry(marker, group.value, r.iconNum));
      return true;
    }

    /**
     * `fetchData`: with no response (the fetch or the parse failed) nothing changes; otherwise
     * `createMarker` runs over the records into a fresh object, and `markers` is replaced by
     * it only when no call threw. Markers added before a throw stay on their layers.
     */
    method FetchData(response: Option<seq<Record>>)
      requires Valid()
      modifies this`markers, this`layers, this`nextHandle
      ensures Valid()
      ensures response.None? ==> markers == old(markers) && layers == old(layers) && nextHandle == old(nextHandle)
      ensures response.Some? ==>
                var o := Run(Progress(Empty, old(layers), old(nextHandle)), response.value);
                && layers == o.progress.layers
                && nextHandle == o.progress.next
                && markers == if o.Completed? then o.progress.table else old(markers)
    {
      if response.None? {
        return;
      }
      var records := response.value;
      ghost var start := Progress(Empty, layers, nextHandle);
      var newMarkers := new MarkersObject();
      var i, ok := 0, true;
      while i < |records| && ok
        invariant 0 <= i <= |records|
        invariant newMarkers.Valid()
        invariant markers == old(markers)
        invariant ok ==> Run(start, records) == Run(Progress(newMarkers.Value(), layers, nextHandle), records[i..])
        invariant !ok ==> Run(start, records) == Threw(Progress(newMarkers.Value(), layers, nextHandle))
        decreases |records| - i, ok
      {
        ok := CreateMarker(records[i], newMarkers);
        i := i + 1;
      }
      RunKeepsLayers(start, records);
      RunDrawsFreshMarkers(start, records);
      if ok {
        assert records[i..] == [];
        RunKeepsWellFormed(start, records);
        markers := newMarkers.Value();
      }
    }

    /** `addMarker`: a map click removes the pin if there is one, and otherwise drops one at the click. */
    method AddMarker(at: LatLng)
      requires Valid()
      modifies this`pin, this`onMap, this`nextHandle
      ensures Valid()
      ensures pin == Click(old(pin), at, old(nextHandle))
      ensures nextHandle == if old(pin).None? then old(nextHandle) + 1 else old(nextHandle)
      ensures pin.Some? ==> forall q :: q in layers ==> q.1 != pin.value.marker
    {
      if pin.Some? {
        onMap := onMap - {pin.value.marker};
        pin := None;
      } else {
        var marker := nextHandle;
        nextHandle := nextHandle + 1;
        onMap := onMap + {marker};
        pin := Some(Pin(marker, at));
      }
    }

    /** `baselayerchange`, then the effect on `selectedMap` that colours the map container. */
    method OnBaseLayerChange(name: string)
      modifies this`selectedMap, this`background
      ensures selectedMap == name
      ensures background == Background(name, old(background))
    {
      selectedMap := name;
      background := Background(name, background);
    }

    /** `overlayadd`: `activeGroup` becomes the added layer's `options.name`. */
    method OnOverlayAdd(optionsName: Option<string>)
      modifies this`activeGroup
      ensures activeGroup == optionsName
      ensures optionsName == IconsLayerName ==> forall g :: !Highlighted(activeGroup, g)
    {
      activeGroup := optionsName;
    }

    /** `overlayremove`: whichever layer went, `activeGroup` becomes `null`. */
    method OnOverlayRemove()
      modifies this`activeGroup
      ensures activeGroup == None
    {
      activeGroup := None;
    }

    /**
     * `activatePopup`: the marker whose popup opens for `title`. The title must be a key,
     * as `markers[title]` is dereferenced unguarded; the marker sits on its group's layer.
     */
    method ActivatePopup(title: string) returns (marker: Handle)
      requires Valid()
      requires title in markers.entries
      ensures marker == markers.entries[title].marker
      ensures (markers.entries[title].group, marker) in layers
    {
      marker := markers.entries[title].marker;
    }

    /** `toggleMenu` */
    method ToggleMenu()
      modifies this`menu
      ensures menu == Toggle(old(menu))
    {
      menu := Toggle(menu);
    }

    /** The arrow next to group `g` in the menu. */
    method ClickArrow(g: Group)
      modifies this`menu
      ensures menu == ArrowClick(old(menu), g)
    {
      menu := ArrowClick(menu, g);
    }
  }
}
