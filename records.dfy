/** The records the dashboard reads from the platform's table API, and the
    helpers that several components repeat word for word: field
    normalisation, the location lookup by sys_id, the location display name,
    the record URL and the "incident"/"incidents" noun. */
module Records {
  import opened Common

  /** A record field as the table API returns it: missing, a raw scalar, or a
      `{value, display_value}` pair. Scalars are modelled by their string form. */
  datatype Field = Absent | Raw(text: string) | Wrapped(value: string, display: string)

  /** `typeof f === 'object' ? f.value : f`; `None` is JavaScript's `undefined`. */
  function ValueOf(f: Field): (r: Option<string>)
    ensures r.None? <==> f.Absent?
    ensures f.Raw? ==> r == Some(f.text)
    ensures f.Wrapped? ==> r == Some(f.value)
  {
    match f
    case Absent => None
    case Raw(t) => Some(t)
    case Wrapped(v, _) => Some(v)
  }

  /** `typeof f === 'object' ? f.display_value : f` (`extractDisplayValue`). */
  function DisplayOf(f: Field): (r: Option<string>)
    ensures r.None? <==> f.Absent?
    ensures f.Raw? ==> r == Some(f.text)
    ensures f.Wrapped? ==> r == Some(f.display)
  {
    match f
    case Absent => None
    case Raw(t) => Some(t)
    case Wrapped(_, d) => Some(d)
  }

  /** The two readers disagree exactly on wrapped fields whose raw and display
      forms differ; on a raw field both return the field itself. */
  lemma ReadersAgree(f: Field)
    ensures ValueOf(f) != DisplayOf(f) <==> f.Wrapped? && f.value != f.display
    ensures f.Raw? ==> ValueOf(f) == DisplayOf(f) == Some(f.text)
  {
  }

  /** JavaScript truthiness of a string-or-undefined. */
  predicate Truthy(v: Option<string>) {
    v.Some? && v.value != ""
  }

  /** `String(v)` and template-literal interpolation of a string-or-undefined. */
  function JsString(v: Option<string>): string {
    match v
    case None => "undefined"
    case Some(s) => s
  }

  datatype Incident = Incident(
    sysId: Field,
    number: Field,
    shortDescription: Field,
    priority: Field,
    state: Field,
    location: Field,
    openedAt: Field,
    assignedTo: Field,
    callerId: Field)

  datatype Location = Location(
    sysId: Field,
    name: Field,
    city: Field,
    state: Field,
    latitude: Field,
    longitude: Field)

  /** Index of the first location whose unwrapped sys_id equals `id`
      (`locations.find(loc => sysId(loc) === id)`). */
  function FindLocation(locations: seq<Location>, id: Option<string>): (r: Option<nat>)
    ensures r.Some? ==> r.value < |locations| && ValueOf(locations[r.value].sysId) == id
    ensures r.Some? ==> forall j :: 0 <= j < r.value ==> ValueOf(locations[j].sysId) != id
    ensures r.None? ==> forall j :: 0 <= j < |locations| ==> ValueOf(locations[j].sysId) != id
  {
    if |locations| == 0 then None
    else if ValueOf(locations[0].sysId) == id then Some(0)
    else
      match FindLocation(locations[1..], id)
      case None => None
      case Some(k) => Some(k + 1)
  }

  /** The location `find` returns, if any. */
  function LocationFor(locations: seq<Location>, id: Option<string>): (r: Option<Location>)
    ensures r.Some? <==> exists j :: 0 <= j < |locations| && ValueOf(locations[j].sysId) == id
    ensures r.Some? ==> r.value in locations && ValueOf(r.value.sysId) == id
    ensures r.Some? ==> exists j :: 0 <= j < |locations| && r.value == locations[j] && ValueOf(locations[j].sysId) == id &&
                          forall k :: 0 <= k < j ==> ValueOf(locations[k].sysId) != id
  {
    match FindLocation(locations, id)
    case None => None
    case Some(k) =>
      assert forall i :: 0 <= i < k ==> ValueOf(locations[i].sysId) != id;
      Some(locations[k])
  }

  /** `name || ''`. */
  function NameOrEmpty(loc: Location): string {
    var name := DisplayOf(loc.name);
    if Truthy(name) then name.value else ""
  }

  /** `getLocationDisplayName`, which appears in the map, the list and the
      location filter: the name, then " (city, state)", " (city)" or
      " (state)" for whichever of the two are present, and
      "Unknown Location" when that leaves nothing. */
  function LocationDisplayName(loc: Location): (r: string)
    ensures r != ""
    ensures var base := NameOrEmpty(loc);
            var city := DisplayOf(loc.city);
            var st := DisplayOf(loc.state);
            && (Truthy(city) && Truthy(st) ==> r == base + " (" + city.value + ", " + st.value + ")")
            && (Truthy(city) && !Truthy(st) ==> r == base + " (" + city.value + ")")
            && (!Truthy(city) && Truthy(st) ==> r == base + " (" + st.value + ")")
            && (!Truthy(city) && !Truthy(st) ==> r == if base == "" then "Unknown Location" else base)
    ensures NameOrEmpty(loc) <= r
  {
    var city := DisplayOf(loc.city);
    var st := DisplayOf(loc.state);
    var displayName := NameOrEmpty(loc);
    var withPlace :=
      if Truthy(city) && Truthy(st) then displayName + " (" + city.value + ", " + st.value + ")"
      else if Truthy(city) then displayName + " (" + city.value + ")"
      else if Truthy(st) then displayName + " (" + st.value + ")"
      else displayName;
    if withPlace != "" then withPlace else "Unknown Location"
  }

  const IncidentUrlPrefix: string := "/incident.do?sys_id="

  /** Reads the sys_id back out of a record form URL. */
  function SysIdFromUrl(url: string): (r: Option<string>)
    ensures r.Some? <==> IncidentUrlPrefix <= url
  {
    if IncidentUrlPrefix <= url then Some(url[|IncidentUrlPrefix|..]) else None
  }

  /** `getIncidentUrl` (map popup and list card): the record form URL for the
      incident's unwrapped sys_id, from which that sys_id is read back. */
  function IncidentUrl(incident: Incident): (url: string)
    ensures SysIdFromUrl(url) == Some(JsString(ValueOf(incident.sysId)))
  {
    var url := IncidentUrlPrefix + JsString(ValueOf(incident.sysId));
    assert url[..|IncidentUrlPrefix|] == IncidentUrlPrefix;
    assert url[|IncidentUrlPrefix|..] == JsString(ValueOf(incident.sysId));
    url
  }

  /** Two incidents share a URL only when they share a sys_id. */
  lemma {:induction false} IncidentUrlInjective(a: Incident, b: Incident)
    requires IncidentUrl(a) == IncidentUrl(b)
    ensures JsString(ValueOf(a.sysId)) == JsString(ValueOf(b.sysId))
  {
  }

  /** `incident{count !== 1 ? 's' : ''}`. */
  function IncidentsNoun(count: int): (r: string)
    ensures r == "incident" <==> count == 1
    ensures r == "incident" || r == "incidents"
  {
    "incident" + if count != 1 then "s" else ""
  }

  /** The filter record the filter bar reports to the root view. */
  datatype Filters = Filters(
    search: string,
    priority: seq<string>,
    state: seq<string>,
    dateFrom: string,
    dateTo: string)

  const EmptyFilters: Filters := Filters("", [], [], "", "")
}
