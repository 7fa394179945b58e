/**
 * The map-driven state of the component: the pin dropped by map clicks, the background
 * colour chosen from the selected base style, and the group highlighted in the menu.
 */
module Interaction {
  import opened Options
  import opened Groups
  import opened Surface

  /** The pin held in `markerRef.current`: its marker and the point it was dropped at. */
  datatype Pin = Pin(marker: Handle, at: LatLng)

  /** The markers the pin places straight on the map: its own, or none. */
  function PinMarkers(pin: Option<Pin>): (r: set<Handle>)
    ensures |r| <= 1
    ensures forall h :: h in r <==> pin.Some? && pin.value.marker == h
  {
    if pin.Some? then {pin.value.marker} else {}
  }

  /**
   * `addMarker` for a click at `at`: with a pin present the click removes it; with none it
   * drops exactly one pin, the fresh marker `h`, at the clicked point.
   */
  function Click(pin: Option<Pin>, at: LatLng, h: Handle): (r: Option<Pin>)
    ensures r.Some? <==> pin.None?
    ensures r.Some? ==> r.value.marker == h && r.value.at == at
  {
    if pin.Some? then None else Some(Pin(h, at))
  }

  /** The pin after a run of clicks, each drop drawing the next marker identity. */
  function AfterClicks(pin: Option<Pin>, clicks: seq<LatLng>, next: Handle): Option<Pin>
    decreases |clicks|
  {
    if clicks == [] then pin
    else AfterClicks(Click(pin, clicks[0], next), clicks[1..], if pin.None? then next + 1 else next)
  }

  /**
   * Clicks alternate the pin: from no pin, an odd number of clicks leaves one pin, at the
   * last clicked point, and an even number leaves none.
   */
  lemma {:induction false} ClicksAlternate(pin: Option<Pin>, clicks: seq<LatLng>, next: Handle)
    ensures AfterClicks(pin, clicks, next).Some? <==> (pin.Some? <==> |clicks| % 2 == 0)
    ensures clicks != [] && AfterClicks(pin, clicks, next).Some? ==>
              AfterClicks(pin, clicks, next).value.at == clicks[|clicks| - 1]
    decreases |clicks|
  {
    if clicks != [] {
      var rest := clicks[1..];
      ClicksAlternate(Click(pin, clicks[0], next), rest, if pin.None? then next + 1 else next);
      if rest != [] {
        assert rest[|rest| - 1] == clicks[|clicks| - 1];
      }
    }
  }

  const AtlasStyle: string := "Estilo Atlas"
  const SatelliteStyle: string := "Estilo Satélite"
  const AtlasColour: string := "#0FA8D2"
  const SatelliteColour: string := "#153E69"

  /** The colour each of the two base styles gives the map container. */
  function StyleColour(name: string): (c: Option<string>)
    ensures c.Some? <==> name == AtlasStyle || name == SatelliteStyle
  {
    if name == AtlasStyle then Some(AtlasColour)
    else if name == SatelliteStyle then Some(SatelliteColour)
    else None
  }

  /** The style whose colour `c` is, if any. */
  function ColourStyle(c: string): Option<string>
  {
    if c == AtlasColour then Some(AtlasStyle)
    else if c == SatelliteColour then Some(SatelliteStyle)
    else None
  }

  /**
   * The effect on `selectedMap`: a known style sets its own colour, which tells the style
   * back; any other name leaves the current colour.
   */
  function Background(selected: string, current: string): (c: string)
    ensures StyleColour(selected).Some? ==> ColourStyle(c) == Some(selected)
    ensures StyleColour(selected).None? ==> c == current
  {
    match StyleColour(selected)
    case Some(colour) => colour
    case None => current
  }

  /** The colour after a run of `baselayerchange` events. */
  function ColourAfter(names: seq<string>, current: string): string
    decreases |names|
  {
    if names == [] then current else ColourAfter(names[1..], Background(names[0], current))
  }

  /** Names that are not one of the two styles never change the colour. */
  lemma {:induction false} UnknownStylesKeepColour(names: seq<string>, current: string)
    requires forall i :: 0 <= i < |names| ==> StyleColour(names[i]).None?
    ensures ColourAfter(names, current) == current
    decreases |names|
  {
    if names != [] {
      assert forall i :: 0 <= i < |names[1..]| ==> names[1..][i] == names[i + 1];
      UnknownStylesKeepColour(names[1..], current);
    }
  }

  /** After a run of events the colour is that of the last known style among them. */
  lemma {:induction false} LastStyleSetsColour(names: seq<string>, current: string, i: nat)
    requires i < |names| && StyleColour(names[i]).Some?
    requires forall j :: i < j < |names| ==> StyleColour(names[j]).None?
    ensures ColourAfter(names, current) == StyleColour(names[i]).value
    decreases |names|
  {
    var rest := names[1..];
    assert forall j :: 0 <= j < |rest| ==> rest[j] == names[j + 1];
    if i == 0 {
      UnknownStylesKeepColour(rest, Background(names[0], current));
    } else {
      LastStyleSetsColour(rest, Background(names[0], current), i - 1);
    }
  }

  /**
   * `activeGroup === group`: whether the titles listed under `g` carry the `active` class;
   * only a key of `Icons` highlights, and it highlights its own group alone.
   */
  predicate Highlighted(activeGroup: Option<string>, g: Group)
    ensures Highlighted(activeGroup, g) ==> activeGroup.Some? && Lookup(activeGroup.value) == Some(g)
  {
    activeGroup == Some(Name(g))
  }

  /**
   * The `options.name` of the layer groups in `Icons`: they are created without options,
   * so `overlayadd` on any of them sets `activeGroup` to `undefined` and no group is
   * highlighted.
   */
  const IconsLayerName: Option<string> := None

  lemma IconsOverlayHighlightsNothing(g: Group)
    ensures !Highlighted(IconsLayerName, g)
  {
  }
}
