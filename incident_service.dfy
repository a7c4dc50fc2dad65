/** `IncidentService`: the query string of the incident fetch, the location
    ids of the location fetch, the filter facets, the map-bounds pass-through
    and the label lookups. The fetches themselves are not modelled: a fetch
    result is an input. */
module IncidentService {
  import opened Common
  import opened Records
  import opened Sorting
  import opened StringOrder
  import Codes

  /** `this.activeStates`: New, In Progress, On Hold. */
  const ActiveStates: seq<string> := ["1", "2", "3"]

  const ActiveStateClause: string := "stateIN1,2,3"

  /** The optional argument of `listActiveIncidents`; an empty string or list
      stands for a field that is absent or falsy. */
  datatype QueryFilters = QueryFilters(
    location: string,
    search: string,
    priority: seq<string>,
    state: seq<string>,
    dateFrom: string,
    dateTo: string)

  /** `listActiveIncidents()` with its default `{}`. */
  const NoQueryFilters: QueryFilters := QueryFilters("", "", [], [], "", "")

  predicate IsActiveState(s: string) {
    s in ActiveStates
  }

  /** `filters.state.filter(s => this.activeStates.includes(s))`. */
  function ActiveStateFilter(states: seq<string>): (r: seq<string>)
    ensures forall s :: s in r ==> s in states && s in ActiveStates
    ensures forall s :: s in states && s in ActiveStates ==> s in r
    ensures IsSubsequence(r, states)
    ensures |r| <= |states|
  {
    FilterIsSubsequence(states, IsActiveState);
    Filter(states, IsActiveState)
  }

  /** Each requested active state is kept as often as it was requested, and
      no other state is kept. */
  lemma ActiveStateFilterCounts(states: seq<string>)
    ensures forall s :: multiset(ActiveStateFilter(states))[s] == if s in ActiveStates then multiset(states)[s] else 0
  {
    FilterCounts(states, IsActiveState);
  }

  /** `stateIN${this.activeStates.join(',')}`. */
  lemma ActiveStateClauseIsJoin()
    ensures StateIn + Join(ActiveStates, ",") == ActiveStateClause
  {
    assert Join(ActiveStates, ",") == "1,2,3" by {
      assert ActiveStates[1..] == ["2", "3"];
      assert ["2", "3"][1..] == ["3"];
    }
  }

  /** The field-and-operator prefixes of the clauses. */
  const StateIn: string := "stateIN"
  const LocationIs: string := "location="
  const DescriptionLike: string := "short_descriptionLIKE"
  const OrNumberLike: string := "ORnumberLIKE"
  const PriorityIn: string := "priorityIN"
  const OpenedFrom: string := "opened_at>="
  const OpenedTo: string := "opened_at<="

  /** The clause groups, each empty when its filter is absent or falsy. */
  function LocationClauses(f: QueryFilters): seq<string> {
    if f.location != "" then [LocationIs + f.location] else []
  }

  function SearchClauses(f: QueryFilters): seq<string> {
    if f.search != "" then [DescriptionLike + f.search, OrNumberLike + f.search] else []
  }

  function PriorityClauses(f: QueryFilters): seq<string> {
    if |f.priority| > 0 then [PriorityIn + Join(f.priority, ",")] else []
  }

  function StateClauses(f: QueryFilters): seq<string> {
    var activeStateFilter := ActiveStateFilter(f.state);
    if |activeStateFilter| > 0 then [StateIn + Join(activeStateFilter, ",")] else []
  }

  function DateFromClauses(f: QueryFilters): seq<string> {
    if f.dateFrom != "" then [OpenedFrom + f.dateFrom] else []
  }

  function DateToClauses(f: QueryFilters): seq<string> {
    if f.dateTo != "" then [OpenedTo + f.dateTo] else []
  }

  /** The clauses of the query in the order the service appends them;
      the query is these clauses joined by '^'. The active-state clause
      always opens it, and it holds nothing else exactly when no filter is
      set (a state filter counting only when it names an active state). */
  function QueryClauses(f: QueryFilters): (r: seq<string>)
    ensures 1 <= |r| <= 8 && r[0] == ActiveStateClause
    ensures |r| == 1 <==> f.location == "" && f.search == "" && |f.priority| == 0
                          && |ActiveStateFilter(f.state)| == 0 && f.dateFrom == "" && f.dateTo == ""
  {
    [ActiveStateClause] + LocationClauses(f) + SearchClauses(f) + PriorityClauses(f)
    + StateClauses(f) + DateFromClauses(f) + DateToClauses(f)
  }

  /** Every query opens with the active-state clause. */
  lemma QueryStartsWithActiveStates(f: QueryFilters)
    ensures ActiveStateClause <= Join(QueryClauses(f), "^")
  {
    var clauses := QueryClauses(f);
    assert clauses[0] == ActiveStateClause;
    JoinStartsWithFirst(clauses, "^");
  }

  /** `query += '^' + clause`. */
  function Appended(query: string, clause: string): string {
    query + "^" + clause
  }

  /** Appending one clause after a '^' extends the joined clause list. */
  lemma AppendClause(query: string, clauses: seq<string>, clause: string)
    requires |clauses| > 0 && query == Join(clauses, "^")
    ensures Appended(query, clause) == Join(clauses + [clause], "^")
  {
    JoinSnoc(clauses, clause, "^");
  }

  /** `if (present) query += '^' + clause`; `clauses` is the list the query
      joins, before and after. */
  method AppendIf(query: string, ghost clauses: seq<string>, present: bool, clause: string)
    returns (q: string, ghost after: seq<string>)
    requires |clauses| > 0 && query == Join(clauses, "^")
    ensures after == clauses + if present then [clause] else []
    ensures q == Join(after, "^")
    ensures query <= q && (present <==> |q| > |query|)
  {
    q, after := query, clauses;
    if present {
      AppendClause(query, clauses, clause);
      q, after := Appended(query, clause), clauses + [clause];
    }
  }

  /** The `sysparm_query` of `listActiveIncidents`, built by appending one
      clause at a time. */
  method BuildIncidentQuery(f: QueryFilters) returns (query: string)
    ensures query == Join(QueryClauses(f), "^")
    ensures ActiveStateClause <= query
  {
    query := StateIn + Join(ActiveStates, ",");
    ActiveStateClauseIsJoin();
    ghost var clauses: seq<string> := [ActiveStateClause];
    ghost var done := clauses;

    query, clauses := AppendIf(query, clauses, f.location != "", LocationIs + f.location);
    assert clauses == done + LocationClauses(f);
    done := clauses;

    query, clauses := AppendIf(query, clauses, f.search != "", DescriptionLike + f.search);
    query, clauses := AppendIf(query, clauses, f.search != "", OrNumberLike + f.search);
    assert clauses == done + SearchClauses(f);
    done := clauses;

    query, clauses := AppendIf(query, clauses, |f.priority| > 0, PriorityIn + Join(f.priority, ","));
    assert clauses == done + PriorityClauses(f);
    done := clauses;

    var activeStateFilter := ActiveStateFilter(f.state);
    query, clauses := AppendIf(query, clauses, |activeStateFilter| > 0, StateIn + Join(activeStateFilter, ","));
    assert clauses == done + StateClauses(f);
    done := clauses;

    query, clauses := AppendIf(query, clauses, f.dateFrom != "", OpenedFrom + f.dateFrom);
    assert clauses == done + DateFromClauses(f);
    done := clauses;

    query, clauses := AppendIf(query, clauses, f.dateTo != "", OpenedTo + f.dateTo);
    assert clauses == done + DateToClauses(f);
    assert clauses == QueryClauses(f);
    QueryStartsWithActiveStates(f);
  }

  /** Without filters (the way the root view and the other service calls
      invoke it) the query is the active-state clause alone. */
  lemma DefaultQuery()
    ensures Join(QueryClauses(NoQueryFilters), "^") == ActiveStateClause
  {
    assert QueryClauses(NoQueryFilters) == [ActiveStateClause];
  }

  lemma {:induction false} JoinAvoids(xs: seq<string>, sep: string, c: char)
    requires c !in sep
    requires forall i :: 0 <= i < |xs| ==> c !in xs[i]
    ensures c !in Join(xs, sep)
  {
    if |xs| > 1 {
      JoinAvoids(xs[1..], sep, c);
    }
  }

  /** No filter value contains the clause separator '^'. */
  predicate CaretFree(f: QueryFilters) {
    && '^' !in f.location && '^' !in f.search && '^' !in f.dateFrom && '^' !in f.dateTo
    && (forall i :: 0 <= i < |f.priority| ==> '^' !in f.priority[i])
    && (forall i :: 0 <= i < |f.state| ==> '^' !in f.state[i])
  }

  ghost predicate NoCaretIn(clauses: seq<string>) {
    forall i :: 0 <= i < |clauses| ==> '^' !in clauses[i]
  }

  lemma NoCaretConcat(a: seq<string>, b: seq<string>)
    requires NoCaretIn(a) && NoCaretIn(b)
    ensures NoCaretIn(a + b)
  {
    forall i | 0 <= i < |a + b| ensures '^' !in (a + b)[i] {
      if i >= |a| {
        assert (a + b)[i] == b[i - |a|];
      }
    }
  }

  lemma NoCaretInPriorityClauses(f: QueryFilters)
    requires forall i :: 0 <= i < |f.priority| ==> '^' !in f.priority[i]
    ensures NoCaretIn(PriorityClauses(f))
  {
    JoinAvoids(f.priority, ",", '^');
  }

  lemma NoCaretInStateClauses(f: QueryFilters)
    requires forall i :: 0 <= i < |f.state| ==> '^' !in f.state[i]
    ensures NoCaretIn(StateClauses(f))
  {
    var act := ActiveStateFilter(f.state);
    forall i | 0 <= i < |act| ensures '^' !in act[i] {
      assert act[i] in act;
    }
    JoinAvoids(act, ",", '^');
  }

  lemma NoCaretInDateClauses(f: QueryFilters)
    requires '^' !in f.dateFrom && '^' !in f.dateTo
    ensures NoCaretIn(DateFromClauses(f)) && NoCaretIn(DateToClauses(f))
  {
  }

  /** Splitting the query at '^' recovers exactly the clauses, as long as no
      filter value contains '^' itself (a value that does splits into extra
      clauses on the server). */
  lemma QueryClausesRecoverable(f: QueryFilters)
    requires CaretFree(f)
    ensures Split(Join(QueryClauses(f), "^"), '^') == QueryClauses(f)
  {
    NoCaretInPriorityClauses(f);
    NoCaretInStateClauses(f);
    NoCaretInDateClauses(f);
    var c1 := [ActiveStateClause] + LocationClauses(f);
    NoCaretConcat([ActiveStateClause], LocationClauses(f));
    var c2 := c1 + SearchClauses(f);
    NoCaretConcat(c1, SearchClauses(f));
    var c3 := c2 + PriorityClauses(f);
    NoCaretConcat(c2, PriorityClauses(f));
    var c4 := c3 + StateClauses(f);
    NoCaretConcat(c3, StateClauses(f));
    var c5 := c4 + DateFromClauses(f);
    NoCaretConcat(c4, DateFromClauses(f));
    NoCaretConcat(c5, DateToClauses(f));
    assert c5 + DateToClauses(f) == QueryClauses(f);
    SplitJoin(QueryClauses(f), '^');
  }

  /** Only the state group holds a clause starting with StateIn. */
  lemma OnlyStateGroupStartsWithState(f: QueryFilters, c: string)
    requires c in LocationClauses(f) || c in SearchClauses(f) || c in PriorityClauses(f)
             || c in DateFromClauses(f) || c in DateToClauses(f)
    ensures !(StateIn <= c)
  {
    if c !in SearchClauses(f) {
      assert c[0] != 's';
    } else {
      assert c[1] != 't' || c[0] != 's';
    }
  }

  /** The extra state clause exists exactly when some requested state is an
      active state, and then lists just those states; no other clause after
      the first starts with StateIn. */
  lemma ExtraStateClause(f: QueryFilters)
    ensures var clauses := QueryClauses(f);
            var act := ActiveStateFilter(f.state);
            && ((exists i :: 1 <= i < |clauses| && StateIn <= clauses[i]) <==> |act| > 0)
            && (forall i :: 1 <= i < |clauses| && StateIn <= clauses[i] ==>
                  clauses[i] == StateIn + Join(act, ","))
  {
    var clauses := QueryClauses(f);
    var act := ActiveStateFilter(f.state);
    forall i | 1 <= i < |clauses| && StateIn <= clauses[i]
      ensures |act| > 0 && clauses[i] == StateIn + Join(act, ",")
    {
      StateClauseAt(f, i);
    }
    if |act| > 0 {
      var k := 1 + |LocationClauses(f) + SearchClauses(f) + PriorityClauses(f)|;
      StateClauseIndex(f);
      assert StateIn <= clauses[k];
    }
  }

  /** A clause after the first that starts with StateIn is the extra state
      clause, which is then present. */
  lemma StateClauseAt(f: QueryFilters, i: int)
    requires 1 <= i < |QueryClauses(f)| && StateIn <= QueryClauses(f)[i]
    ensures |ActiveStateFilter(f.state)| > 0
    ensures QueryClauses(f)[i] == StateIn + Join(ActiveStateFilter(f.state), ",")
  {
    var clauses := QueryClauses(f);
    var before := LocationClauses(f) + SearchClauses(f) + PriorityClauses(f);
    var after := DateFromClauses(f) + DateToClauses(f);
    var rest := before + StateClauses(f) + after;
    QueryClausesAfterFirst(f);
    var c := clauses[i];
    assert c == rest[i - 1] && c in rest;
    if c in before || c in after {
      OnlyStateGroupStartsWithState(f, c);
      assert false;
    }
    assert c in StateClauses(f);
  }

  /** The clauses after the first, grouped around the state group. */
  lemma QueryClausesAfterFirst(f: QueryFilters)
    ensures QueryClauses(f) == [ActiveStateClause]
              + ((LocationClauses(f) + SearchClauses(f) + PriorityClauses(f)) + StateClauses(f)
                 + (DateFromClauses(f) + DateToClauses(f)))
  {
    var l, s, p, st := LocationClauses(f), SearchClauses(f), PriorityClauses(f), StateClauses(f);
    var d1, d2 := DateFromClauses(f), DateToClauses(f);
    var a := [ActiveStateClause];
    ConcatAssoc(a + l, s, p);
    ConcatAssoc(a, l, s + p);
    assert a + l + s + p == a + (l + s + p);
    ConcatAssoc(a, l + s + p, st);
    ConcatAssoc(a + (l + s + p) + st, d1, d2);
    ConcatAssoc(a, (l + s + p) + st, d1 + d2);
  }

  /** When present, the extra state clause follows the location, search and
      priority clauses. */
  lemma StateClauseIndex(f: QueryFilters)
    requires |ActiveStateFilter(f.state)| > 0
    ensures var k := 1 + |LocationClauses(f) + SearchClauses(f) + PriorityClauses(f)|;
            k < |QueryClauses(f)| && QueryClauses(f)[k] == StateIn + Join(ActiveStateFilter(f.state), ",")
  {
    var before := LocationClauses(f) + SearchClauses(f) + PriorityClauses(f);
    var after := DateFromClauses(f) + DateToClauses(f);
    assert QueryClauses(f) == [ActiveStateClause] + before + StateClauses(f) + after;
  }

  /** The values `.filter(Boolean)` keeps, unwrapped: present and non-empty. */
  function TruthyStrings(values: seq<Option<string>>): (r: seq<string>)
    ensures forall s :: s in r ==> s != "" && Some(s) in values
    ensures forall s :: s != "" && Some(s) in values ==> s in r
  {
    if |values| == 0 then []
    else (if Truthy(values[0]) then [values[0].value] else []) + TruthyStrings(values[1..])
  }

  function LocationValues(incidents: seq<Incident>): seq<Option<string>> {
    seq(|incidents|, i requires 0 <= i < |incidents| => ValueOf(incidents[i].location))
  }

  /** `[...new Set(incidents.map(location.value).filter(Boolean))]`. */
  function LocationIds(incidents: seq<Incident>): (r: seq<string>)
    ensures NoDuplicates(r)
    ensures forall id :: id in r ==>
              id != "" && exists i :: 0 <= i < |incidents| && ValueOf(incidents[i].location) == Some(id)
    ensures forall i :: 0 <= i < |incidents| && Truthy(ValueOf(incidents[i].location)) ==>
              ValueOf(incidents[i].location).value in r
  {
    var values := LocationValues(incidents);
    assert forall i :: 0 <= i < |incidents| ==> values[i] == ValueOf(incidents[i].location);
    Dedup(TruthyStrings(values))
  }

  const SysIdIn: string := "sys_idIN"
  const WithCoordinates: string := "^latitude!=NULL^longitude!=NULL"

  /** The `sysparm_query` of the location fetch of
      `listActiveIncidentLocations`, or `None` when no incident references a
      location (the service then returns `[]` without fetching). A lookup
      asks for records by sys_id and only those with both coordinates. */
  function LocationLookupQuery(incidents: seq<Incident>): (r: Option<string>)
    ensures r.None? <==> forall i :: 0 <= i < |incidents| ==> !Truthy(ValueOf(incidents[i].location))
    ensures r.Some? ==> SysIdIn <= r.value && |SysIdIn| + |WithCoordinates| <= |r.value|
                        && r.value[|r.value| - |WithCoordinates|..] == WithCoordinates
  {
    var ids := LocationIds(incidents);
    if |ids| == 0 then None
    else
      assert ids[0] in ids;
      var q := SysIdIn + Join(ids, ",") + WithCoordinates;
      assert q[..|SysIdIn|] == SysIdIn;
      assert q[|q| - |WithCoordinates|..] == WithCoordinates;
      Some(q)
  }

  /** The sys_ids a location query asks for: the comma-separated list between
      its `sys_idIN` prefix and its coordinate clauses. */
  function LookedUpIds(query: string): Option<seq<string>> {
    if SysIdIn <= query && |SysIdIn| + |WithCoordinates| <= |query|
       && query[|query| - |WithCoordinates|..] == WithCoordinates
    then Some(Split(query[|SysIdIn|..|query| - |WithCoordinates|], ','))
    else None
  }

  /** The lookup asks for exactly the incidents' location ids, in their
      first-seen order, provided no id contains a comma. */
  lemma LocationLookupRecoverable(incidents: seq<Incident>)
    requires forall i :: 0 <= i < |incidents| && ValueOf(incidents[i].location).Some? ==>
               ',' !in ValueOf(incidents[i].location).value
    ensures LocationLookupQuery(incidents).Some? ==>
              LookedUpIds(LocationLookupQuery(incidents).value) == Some(LocationIds(incidents))
  {
    var ids := LocationIds(incidents);
    if |ids| > 0 {
      var joined := Join(ids, ",");
      var q := SysIdIn + joined + WithCoordinates;
      assert LocationLookupQuery(incidents) == Some(q);
      assert q[|SysIdIn|..|q| - |WithCoordinates|] == joined;
      forall k | 0 <= k < |ids| ensures ',' !in ids[k] {
        assert ids[k] in ids;
      }
      SplitJoin(ids, ',');
    }
  }

  /** The default string order is a strict order on any list of strings. */
  lemma StrLessIsStrictOrder(u: seq<string>)
    ensures StrictOrderOn(u, StrLess)
  {
    forall a, b | StrLess(a, b) ensures !StrLess(b, a) {
      StrLessAsymmetric(a, b);
    }
    forall a, b, c | StrLess(a, b) && StrLess(b, c) ensures StrLess(a, c) {
      StrLessTransitive(a, b, c);
    }
  }

  /** Sorting distinct strings gives a strictly ascending list. */
  lemma SortDistinctStrings(distinct: seq<string>)
    requires NoDuplicates(distinct)
    ensures var r := InsertionSort(distinct, StrLess);
            NoDuplicates(r) && forall i, j :: 0 <= i < j < |r| ==> StrLess(r[i], r[j])
  {
    StrLessIsStrictOrder(distinct);
    InsertionSortSorted(distinct, StrLess, distinct);
    InsertionSortNoDuplicates(distinct, StrLess);
    var r := InsertionSort(distinct, StrLess);
    forall i, j | 0 <= i < j < |r| ensures StrLess(r[i], r[j]) {
      StrLessTotal(r[i], r[j]);
    }
  }

  /** A permutation has the same elements. */
  lemma SameElements(a: seq<string>, b: seq<string>)
    requires multiset(a) == multiset(b)
    ensures forall s :: s in a <==> s in b
  {
    forall s ensures s in a <==> s in b {
      assert s in a <==> s in multiset(a);
      assert s in b <==> s in multiset(b);
    }
  }

  /** Distinct, non-empty values, sorted ascending as strings
      (`[...new Set(values.filter(Boolean))].sort()`). */
  function Facet(values: seq<Option<string>>): (r: seq<string>)
    ensures NoDuplicates(r)
    ensures forall i, j :: 0 <= i < j < |r| ==> StrLess(r[i], r[j])
    ensures forall s :: s in r ==> s != "" && Some(s) in values
    ensures forall s :: s != "" && Some(s) in values ==> s in r
  {
    var distinct := Dedup(TruthyStrings(values));
    SortDistinctStrings(distinct);
    SameElements(InsertionSort(distinct, StrLess), distinct);
    InsertionSort(distinct, StrLess)
  }

  datatype FilterOptions = FilterOptions(priorities: seq<string>, states: seq<string>)

  function PriorityValues(incidents: seq<Incident>): seq<Option<string>> {
    seq(|incidents|, i requires 0 <= i < |incidents| => ValueOf(incidents[i].priority))
  }

  function StateValues(incidents: seq<Incident>): seq<Option<string>> {
    seq(|incidents|, i requires 0 <= i < |incidents| => ValueOf(incidents[i].state))
  }

  /** `getFilterOptions` on the outcome of its incident fetch: the facets of
      the fetched incidents, or two empty lists when the fetch failed. */
  function GetFilterOptions(fetched: Result<seq<Incident>>): (r: FilterOptions)
    ensures fetched.Err? ==> r == FilterOptions([], [])
    ensures fetched.Ok? ==>
              && (forall p :: p in r.priorities <==>
                    p != "" && exists i :: 0 <= i < |fetched.value| && ValueOf(fetched.value[i].priority) == Some(p))
              && (forall s :: s in r.states <==>
                    s != "" && exists i :: 0 <= i < |fetched.value| && ValueOf(fetched.value[i].state) == Some(s))
              && NoDuplicates(r.priorities) && NoDuplicates(r.states)
              && (forall i, j :: 0 <= i < j < |r.priorities| ==> StrLess(r.priorities[i], r.priorities[j]))
              && (forall i, j :: 0 <= i < j < |r.states| ==> StrLess(r.states[i], r.states[j]))
  {
    match fetched
    case Err(_) => FilterOptions([], [])
    case Ok(incidents) =>
      var pv := PriorityValues(incidents);
      var sv := StateValues(incidents);
      assert forall i :: 0 <= i < |incidents| ==> pv[i] == ValueOf(incidents[i].priority);
      assert forall i :: 0 <= i < |incidents| ==> sv[i] == ValueOf(incidents[i].state);
      FilterOptions(Facet(pv), Facet(sv))
  }

  /** A `LatLngBounds`-like argument: which corner accessors it offers. */
  datatype MapBounds = MapBounds(hasNorthEast: bool, hasSouthWest: bool)

  /** The per-incident test of `filterIncidentsByMapBounds`, which for now
      keeps every incident. */
  predicate WithinBounds(incident: Incident) {
    true
  }

  /** `filterIncidentsByMapBounds`: the incidents unchanged, with or without
      usable bounds. */
  function FilterIncidentsByMapBounds(incidents: seq<Incident>, bounds: Option<MapBounds>): (r: seq<Incident>)
    ensures r == incidents
  {
    if bounds.None? || !bounds.value.hasNorthEast || !bounds.value.hasSouthWest then incidents
    else
      FilterAll(incidents, WithinBounds);
      Filter(incidents, WithinBounds)
  }

  /** The service's `getPriorityLabel`: the label of the unwrapped value. */
  function GetPriorityLabel(priority: Field): (r: string)
    ensures r != "Unknown" <==> ValueOf(priority).Some? && ValueOf(priority).value in Codes.PriorityCodes
    ensures ValueOf(priority).Some? && ValueOf(priority).value in Codes.PriorityCodes ==>
              Codes.PriorityCodeOfLabel(r) == ValueOf(priority).value
  {
    var code := JsString(ValueOf(priority));
    if code in Codes.PriorityCodes then Codes.PriorityTablesInvertible(code); Codes.PriorityLabel(code)
    else Codes.PriorityLabel(code)
  }

  /** The service's `getStateLabel`: the label of the unwrapped value. */
  function GetStateLabel(state: Field): (r: string)
    ensures r != "Unknown" <==> ValueOf(state).Some? && ValueOf(state).value in Codes.StateCodes
    ensures ValueOf(state).Some? && ValueOf(state).value in Codes.StateCodes ==>
              Codes.StateCodeOfLabel(r) == ValueOf(state).value
  {
    var code := JsString(ValueOf(state));
    if code in Codes.StateCodes then Codes.StateTablesInvertible(code); Codes.StateLabel(code)
    else Codes.StateLabel(code)
  }

  /** A wrapped field and the raw scalar of its value get the same labels. */
  lemma LabelsIgnoreWrapping(value: string, display: string)
    ensures GetPriorityLabel(Wrapped(value, display)) == GetPriorityLabel(Raw(value)) == Codes.PriorityLabel(value)
    ensures GetStateLabel(Wrapped(value, display)) == GetStateLabel(Raw(value)) == Codes.StateLabel(value)
  {
  }
}
