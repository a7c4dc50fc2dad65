/** The root view: the loaded incidents and locations, the current filters,
    the map-area flag and the last map bounds, and the client-side filter
    pipeline that decides which incidents the map and the list show. */
module App {
  import opened Common
  import opened Records
  import IncidentService

  /** The search test of the pipeline: the lower-cased number or short
      description (display values) contains the lower-cased search text. */
  predicate MatchesSearch(incident: Incident, searchLower: string) {
    var number := DisplayOf(incident.number);
    var shortDesc := DisplayOf(incident.shortDescription);
    (Truthy(number) && Contains(Lower(number.value), searchLower))
    || (Truthy(shortDesc) && Contains(Lower(shortDesc.value), searchLower))
  }

  /** Each stage's test, which passes everything when its filter is empty. */
  predicate SearchKeeps(f: Filters, incident: Incident) {
    f.search == "" || MatchesSearch(incident, Lower(f.search))
  }

  predicate PriorityKeeps(f: Filters, incident: Incident) {
    |f.priority| == 0 || JsString(ValueOf(incident.priority)) in f.priority
  }

  predicate StateKeeps(f: Filters, incident: Incident) {
    |f.state| == 0 || JsString(ValueOf(incident.state)) in f.state
  }

  /** An incident survives the pipeline when it passes all three stages. */
  predicate Keep(f: Filters, incident: Incident) {
    SearchKeeps(f, incident) && PriorityKeeps(f, incident) && StateKeeps(f, incident)
  }

  /** `filteredIncidents`: the search stage, then the priority stage, then the
      state stage, each applied only when its filter is non-empty. */
  function FilteredIncidents(all: seq<Incident>, f: Filters): (r: seq<Incident>)
    ensures |r| <= |all|
    ensures forall x :: x in r ==> x in all && Keep(f, x)
    ensures forall x :: x in all && Keep(f, x) ==> x in r
    ensures f.search == "" && |f.priority| == 0 && |f.state| == 0 ==> r == all
  {
    var filtered := all;
    var filtered :=
      if f.search != "" then
        var searchLower := Lower(f.search);
        Filter(filtered, (x: Incident) => MatchesSearch(x, searchLower))
      else filtered;
    var filtered :=
      if |f.priority| > 0 then Filter(filtered, (x: Incident) => JsString(ValueOf(x.priority)) in f.priority)
      else filtered;
    var filtered :=
      if |f.state| > 0 then Filter(filtered, (x: Incident) => JsString(ValueOf(x.state)) in f.state)
      else filtered;
    filtered
  }

  /** The three stages are one filter by `Keep`. */
  lemma PipelineIsOneFilter(all: seq<Incident>, f: Filters)
    ensures FilteredIncidents(all, f) == Filter(all, x => Keep(f, x))
  {
    var sk := x => SearchKeeps(f, x);
    var pk := x => PriorityKeeps(f, x);
    var stk := x => StateKeeps(f, x);
    var sp := x => SearchKeeps(f, x) && PriorityKeeps(f, x);
    var keep := x => Keep(f, x);

    var afterSearch :=
      if f.search != "" then Filter(all, (x: Incident) => MatchesSearch(x, Lower(f.search))) else all;
    if f.search != "" {
      FilterCongruent(all, (x: Incident) => MatchesSearch(x, Lower(f.search)), sk);
    } else {
      FilterAll(all, sk);
    }
    assert afterSearch == Filter(all, sk);

    var afterPriority :=
      if |f.priority| > 0 then Filter(afterSearch, (x: Incident) => JsString(ValueOf(x.priority)) in f.priority)
      else afterSearch;
    if |f.priority| > 0 {
      FilterCongruent(afterSearch, (x: Incident) => JsString(ValueOf(x.priority)) in f.priority, pk);
    } else {
      FilterAll(afterSearch, pk);
    }
    FilterFilter(all, sk, pk, sp);
    assert afterPriority == Filter(all, sp);

    if |f.state| > 0 {
      FilterCongruent(afterPriority, (x: Incident) => JsString(ValueOf(x.state)) in f.state, stk);
    } else {
      FilterAll(afterPriority, stk);
    }
    FilterFilter(all, sp, stk, keep);
  }

  /** The result keeps the incidents in their loaded order. */
  lemma {:induction false} PipelinePreservesOrder(all: seq<Incident>, f: Filters)
    ensures IsSubsequence(FilteredIncidents(all, f), all)
  {
    PipelineIsOneFilter(all, f);
    FilterIsSubsequence(all, x => Keep(f, x));
  }

  /** The date range is never applied on the client. */
  lemma DatesNeverFilter(all: seq<Incident>, f: Filters, dateFrom: string, dateTo: string)
    ensures FilteredIncidents(all, f) == FilteredIncidents(all, f.(dateFrom := dateFrom, dateTo := dateTo))
  {
  }

  /** The search ignores letter case: searching for the lower-cased text keeps
      the same incidents. */
  lemma SearchIgnoresCase(all: seq<Incident>, f: Filters)
    ensures FilteredIncidents(all, f) == FilteredIncidents(all, f.(search := Lower(f.search)))
  {
    var g := f.(search := Lower(f.search));
    LowerIdempotent(f.search);
    assert f.search != "" <==> g.search != "";
    PipelineIsOneFilter(all, f);
    PipelineIsOneFilter(all, g);
    FilterCongruent(all, x => Keep(f, x), x => Keep(g, x));
  }

  /** What the root view renders. */
  datatype Screen =
    | LoadingScreen
    | ErrorScreen(message: string)
    | MainScreen(totalIncidents: nat, visibleIncidents: nat, mapAreaFilterActive: bool,
                 shown: seq<Incident>, locations: seq<Location>)

  const LoadErrorPrefix: string := "Failed to load active incident data: "

  /** The root component's state. */
  class Dashboard {
    var allIncidents: seq<Incident>
    var locations: seq<Location>
    var loading: bool
    var error: Option<string>
    var filters: Filters
    var mapAreaFilterActive: bool
    var mapBounds: Option<IncidentService.MapBounds>

    /** The initial state: nothing loaded, loading, no error, empty filters. */
    constructor ()
      ensures allIncidents == [] && locations == [] && loading && error == None
      ensures filters == EmptyFilters && !mapAreaFilterActive && mapBounds == None
    {
      allIncidents := [];
      locations := [];
      loading := true;
      error := None;
      filters := EmptyFilters;
      mapAreaFilterActive := false;
      mapBounds := None;
    }

    /** The incidents the map and the list receive: the loaded incidents
        that pass the current filters, in their loaded order. */
    function Visible(): (r: seq<Incident>)
      reads this
      ensures IsSubsequence(r, allIncidents)
      ensures forall x :: x in allIncidents ==> (x in r <==> Keep(filters, x))
    {
      PipelinePreservesOrder(allIncidents, filters);
      FilteredIncidents(allIncidents, filters)
    }

    /** `loadData` on the outcomes of its two fetches; the location fetch is
        only made when the incident fetch succeeded. */
    method LoadData(incidentFetch: Result<seq<Incident>>, locationFetch: Result<seq<Location>>)
      modifies this
      ensures !loading
      ensures incidentFetch.Ok? && locationFetch.Ok? ==>
                allIncidents == incidentFetch.value && locations == locationFetch.value && error == None
      ensures incidentFetch.Err? ==>
                error == Some(LoadErrorPrefix + incidentFetch.message)
                && allIncidents == old(allIncidents) && locations == old(locations)
      ensures incidentFetch.Ok? && locationFetch.Err? ==>
                error == Some(LoadErrorPrefix + locationFetch.message)
                && allIncidents == old(allIncidents) && locations == old(locations)
      ensures filters == old(filters) && mapAreaFilterActive == old(mapAreaFilterActive)
      ensures mapBounds == old(mapBounds)
    {
      loading := true;
      match incidentFetch {
        case Err(message) =>
          error := Some(LoadErrorPrefix + message);
        case Ok(incidentData) =>
          match locationFetch {
            case Err(message) =>
              error := Some(LoadErrorPrefix + message);
            case Ok(locationData) =>
              allIncidents := incidentData;
              locations := locationData;
              error := None;
          }
      }
      loading := false;
    }

    /** `handleFiltersChange`: adopts the filter bar's record. */
    method HandleFiltersChange(newFilters: Filters)
      modifies this
      ensures filters == newFilters
      ensures allIncidents == old(allIncidents) && locations == old(locations)
      ensures loading == old(loading) && error == old(error)
      ensures mapAreaFilterActive == old(mapAreaFilterActive) && mapBounds == old(mapBounds)
    {
      filters := newFilters;
    }

    /** `handleMapAreaToggle`: negates the flag, which no filter reads. */
    method HandleMapAreaToggle()
      modifies this
      ensures mapAreaFilterActive == !old(mapAreaFilterActive)
      ensures allIncidents == old(allIncidents) && locations == old(locations)
      ensures loading == old(loading) && error == old(error)
      ensures filters == old(filters) && mapBounds == old(mapBounds)
      ensures Visible() == old(Visible())
    {
      mapAreaFilterActive := !mapAreaFilterActive;
    }

    /** `handleMapBoundsChange`: records the bounds, which no filter reads. */
    method HandleMapBoundsChange(bounds: Option<IncidentService.MapBounds>)
      modifies this
      ensures mapBounds == bounds
      ensures allIncidents == old(allIncidents) && locations == old(locations)
      ensures loading == old(loading) && error == old(error)
      ensures filters == old(filters) && mapAreaFilterActive == old(mapAreaFilterActive)
      ensures Visible() == old(Visible())
    {
      mapBounds := bounds;
    }

    /** `handleClearAll`: empty filters and the map-area flag off, after which
        every loaded incident is shown. */
    method HandleClearAll()
      modifies this
      ensures filters == EmptyFilters && !mapAreaFilterActive
      ensures allIncidents == old(allIncidents) && locations == old(locations)
      ensures loading == old(loading) && error == old(error) && mapBounds == old(mapBounds)
      ensures Visible() == allIncidents
    {
      filters := Filters("", [], [], "", "");
      mapAreaFilterActive := false;
    }

    /** The rendered screen: the spinner while loading, the error message when
        one is set, otherwise the filter bar's counts and the filtered
        incidents for the map and the list. */
    function Render(): (r: Screen)
      reads this
      ensures loading <==> r == LoadingScreen
      ensures r.ErrorScreen? <==> !loading && Truthy(error)
      ensures r.ErrorScreen? ==> Some(r.message) == error
      ensures r.MainScreen? ==>
                && r.totalIncidents == r.visibleIncidents == |r.shown| <= |allIncidents|
                && r.shown == Visible()
                && (forall x :: x in r.shown ==> x in allIncidents && Keep(filters, x))
                && r.locations == locations
                && r.mapAreaFilterActive == mapAreaFilterActive
    {
      if loading then LoadingScreen
      else if Truthy(error) then ErrorScreen(error.value)
      else
        var filteredIncidents := Visible();
        MainScreen(|filteredIncidents|, |filteredIncidents|, mapAreaFilterActive, filteredIncidents, locations)
    }
  }
}
