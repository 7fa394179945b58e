/**
 * What the model keeps of the Leaflet rendering surface: markers are opaque handles, and the
 * seven layer groups of `Icons` are kept together as the set of (group, marker) placements.
 */
module Surface {
  import opened Groups

  /** Identity of a Leaflet marker object; a fresh one is drawn for every `L.marker(...)`. */
  type Handle = nat

  /** A point in the map's logical coordinate space (Leaflet's `latlng`). */
  datatype LatLng = LatLng(lat: real, lng: real)

  /** `(g, h)` is present when marker `h` has been added to the layer group `Icons[g]`. */
  type Layers = set<(Group, Handle)>

  /** The markers in the layer group of `g`. */
  function Members(layers: Layers, g: Group): (r: set<Handle>)
    ensures forall h :: h in r <==> (g, h) in layers
  {
    set p | p in layers && p.0 == g :: p.1
  }

  /** `marker.addTo(Icons[g])`: the layer group of `g` gains `h`, every other group is untouched. */
  function AddTo(layers: Layers, g: Group, h: Handle): (r: Layers)
    ensures Members(r, g) == Members(layers, g) + {h}
    ensures forall g' :: g' != g ==> Members(r, g') == Members(layers, g')
  {
    layers + {(g, h)}
  }
}
