/**
 * The seven marker categories of the map. In the component they are the keys of the
 * `Icons` table, each bound to one Leaflet layer group; their declaration order is the
 * order in which the side menu lists them.
 */
module Groups {
  import opened Options

  datatype Group =
    | SaedSapd
    | ZonasDeRiesgo
    | InspeccionesDeSeguridad
    | IncidentesAbiertos
    | IncidentesCerrados
    | CasosAislados
    | OperacionesDeRescate

  /** The key of the group in the `Icons` table, which is also the `group` string of a data record. */
  function Name(g: Group): string
  {
    match g
    case SaedSapd => "SAED - SAPD"
    case ZonasDeRiesgo => "Zonas de riesgo"
    case InspeccionesDeSeguridad => "Inspecciones de seguridad"
    case IncidentesAbiertos => "Incidentes Abiertos"
    case IncidentesCerrados => "Incidentes Cerrados"
    case CasosAislados => "Casos aislados"
    case OperacionesDeRescate => "Operaciones de rescate"
  }

  /** The keys of `Icons` in declaration order, as `Object.keys(Icons)` lists them. */
  const IconsKeys: seq<string> := [
    "SAED - SAPD",
    "Zonas de riesgo",
    "Inspecciones de seguridad",
    "Incidentes Abiertos",
    "Incidentes Cerrados",
    "Casos aislados",
    "Operaciones de rescate"
  ]

  /** The groups in the declaration order of `Icons`. */
  const Order: seq<Group> := [
    SaedSapd, ZonasDeRiesgo, InspeccionesDeSeguridad, IncidentesAbiertos,
    IncidentesCerrados, CasosAislados, OperacionesDeRescate
  ]

  /**
   * `Icons[s]`: the group whose key is `s`, or `None` when `s` is not one of the seven keys
   * (the lookup then yields `undefined`).
   */
  function Lookup(s: string): (r: Option<Group>)
    ensures r.Some? ==> Name(r.value) == s
    ensures r.None? <==> s !in IconsKeys
    ensures forall g :: Name(g) == s ==> r == Some(g)
  {
    if s == "SAED - SAPD" then Some(SaedSapd)
    else if s == "Zonas de riesgo" then Some(ZonasDeRiesgo)
    else if s == "Inspecciones de seguridad" then Some(InspeccionesDeSeguridad)
    else if s == "Incidentes Abiertos" then Some(IncidentesAbiertos)
    else if s == "Incidentes Cerrados" then Some(IncidentesCerrados)
    else if s == "Casos aislados" then Some(CasosAislados)
    else if s == "Operaciones de rescate" then Some(OperacionesDeRescate)
    else None
  }

  /** How many times `x` occurs in `gs`. */
  function Occurrences(gs: seq<Group>, x: Group): nat
  {
    if gs == [] then 0 else (if gs[0] == x then 1 else 0) + Occurrences(gs[1..], x)
  }

  /**
   * The top-level menu is `Object.keys(Icons)`: seven groups, named by the keys of `Icons`
   * in declaration order, each group exactly once.
   */
  lemma OrderListsEveryGroupOnce(g: Group)
    ensures |Order| == |IconsKeys| == 7
    ensures forall i :: 0 <= i < |Order| ==> Name(Order[i]) == IconsKeys[i]
    ensures Occurrences(Order, g) == 1
  {
    OrderNamesKeys();
    var i := match g
      case SaedSapd => 0
      case ZonasDeRiesgo => 1
      case InspeccionesDeSeguridad => 2
      case IncidentesAbiertos => 3
      case IncidentesCerrados => 4
      case CasosAislados => 5
      case OperacionesDeRescate => 6;
    OccursOnceAt(Order, g, i);
  }

  /** A value found at one index of a sequence and at no other occurs there once. */
  lemma {:induction false} OccursOnceAt(gs: seq<Group>, x: Group, i: nat)
    requires i < |gs| && gs[i] == x
    requires forall j :: 0 <= j < |gs| && j != i ==> gs[j] != x
    ensures Occurrences(gs, x) == 1
    decreases |gs|
  {
    if i == 0 {
      NotOccurring(gs[1..], x);
    } else {
      OccursOnceAt(gs[1..], x, i - 1);
    }
  }

  lemma {:induction false} NotOccurring(gs: seq<Group>, x: Group)
    requires forall j :: 0 <= j < |gs| ==> gs[j] != x
    ensures Occurrences(gs, x) == 0
    decreases |gs|
  {
    if gs != [] {
      NotOccurring(gs[1..], x);
    }
  }

  lemma OrderNamesKeys()
    ensures |Order| == |IconsKeys| == 7
    ensures forall i :: 0 <= i < |Order| ==> Name(Order[i]) == IconsKeys[i]
  {
  }
}
