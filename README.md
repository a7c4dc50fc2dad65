# Active incident map — a Dafny model

This project models the client of a ServiceNow dashboard. The dashboard loads
the active incidents (states New, In Progress and On Hold) and their
locations through the platform's table API. It filters them in the browser
and shows them in two places: as location markers on a map and as a list of
cards sorted by priority.

The model covers:

- `IncidentService`: the query string of the incident fetch, the location ids
  and lookup query of the location fetch, the filter facets, the map-bounds
  pass-through and the label lookups;
- the root view (`App`): its state as a class, the load outcome, the filter
  handlers, the three-stage client-side filter pipeline, and what it renders;
- the filter bar (`FilterBar`): its state as a class, the chip toggles, the
  active-filter count, the chips;
- the map (`IncidentMap`): the markers, the grouping of markers by position
  (the source's loop, kept as a loop), and the popup contents;
- the list (`IncidentList`): the priority-then-newest sort, with a model of
  JavaScript's `parseInt`, the location name fallback, the date text, the
  cards;
- the location filter (`LocationFilter`): its option list, the lookup of the
  selected location, and its information line.

Shared pieces live in their own modules:

- `Common`: filter, de-duplication, join and split, substring test,
  lower-casing;
- `Sorting` and `StringOrder`: an insertion sort and the ordering of
  `Array.prototype.sort()` with no comparator;
- `Records`: record fields as the table API returns them, and the helpers
  the components repeat word for word;
- `Codes`: the priority and state label and colour tables.

A record field is missing, a raw scalar, or a `{value, display_value}` pair.
Missing stands for JavaScript's `undefined`.

Functions stand in for what the model cannot compute. Each is a parameter:

- `parseFloat` on a coordinate is `parse: string -> Option<C>`, over an
  opaque coordinate type;
- `new Date(...)` is `timeOf`;
- `toLocaleDateString` is `locale`.

A network fetch is modelled by its outcome, a `Result` value given as input.

## Model

| member | source | states |
|---|---|---|
| IncidentService.ActiveStateFilter | src/client/services/IncidentService.js:39 | the kept states are exactly the requested states that are active, in their requested order, and never more of them |
| IncidentService.ActiveStateFilterCounts | src/client/services/IncidentService.js:39 | each requested active state is kept as many times as it was requested, and no other state is kept |
| IncidentService.ActiveStateClauseIsJoin | src/client/services/IncidentService.js:20 | the opening clause is `stateIN` followed by the active states joined by commas |
| IncidentService.QueryStartsWithActiveStates | src/client/services/IncidentService.js:20 | every query, whatever the filters, begins with `stateIN1,2,3` |
| IncidentService.QueryClauses | src/client/services/IncidentService.js:19-51 | the clause list opens with the active-state clause, has at most eight clauses, and has no other clause exactly when no filter is set, where a state filter counts only if it names an active state |
| IncidentService.AppendIf | src/client/services/IncidentService.js:22-51 | appending a clause under its guard keeps the query equal to the `^`-join of the clauses present so far; the query only ever grows, and grows exactly when the clause is present |
| IncidentService.BuildIncidentQuery | src/client/services/IncidentService.js:19-51 | the query built step by step is the `^`-join of the opening clause, then location, search, priority, state, dateFrom and dateTo clauses, each present only when its filter is truthy or non-empty; it starts with `stateIN1,2,3` |
| IncidentService.DefaultQuery | src/client/services/IncidentService.js:19-20 | with no filters the query is exactly `stateIN1,2,3` |
| IncidentService.QueryClausesRecoverable | src/client/services/IncidentService.js:22-51 | when no filter value contains `^`, splitting the query at `^` gives back exactly the clause list, so clauses are appended in the fixed order and none is lost or merged |
| IncidentService.OnlyStateGroupStartsWithState | src/client/services/IncidentService.js:23-51 | no location, search, priority or date clause starts with `stateIN` |
| IncidentService.ExtraStateClause | src/client/services/IncidentService.js:37-43 | a second `stateIN` clause occurs exactly when some requested state is active, and it then lists exactly those states |
| IncidentService.TruthyStrings | src/client/services/IncidentService.js:83-87 | the kept values are exactly the defined non-empty ones |
| IncidentService.LocationIds | src/client/services/IncidentService.js:83-87 | the location ids are unique, non-empty, taken from the `.value` of each incident's location, and include every such id |
| IncidentService.LocationLookupQuery | src/client/services/IncidentService.js:89-96 | no lookup is made exactly when no incident has a location id; otherwise the query is a `sys_idIN` list that ends with the two coordinate clauses |
| IncidentService.LocationLookupRecoverable | src/client/services/IncidentService.js:83-96 | when no location id contains a comma, the ids read back from the lookup query are exactly `LocationIds(incidents)`, the `Dedup` of the incidents' location ids |
| IncidentService.StrLessIsStrictOrder | src/client/services/IncidentService.js:134 | the default sort order is a strict order on any set of strings |
| IncidentService.SortDistinctStrings | src/client/services/IncidentService.js:130-140 | sorting distinct strings gives distinct strings in strictly ascending order, with the same elements |
| IncidentService.Facet | src/client/services/IncidentService.js:130-140 | a facet has no duplicates, is strictly ascending, and holds exactly the non-empty values present in the incidents |
| IncidentService.GetFilterOptions | src/client/services/IncidentService.js:125-146 | on success, the priorities and states are exactly the non-empty values found, unique and ascending; on failure both lists are empty |
| IncidentService.FilterIncidentsByMapBounds | src/client/services/IncidentService.js:152-166 | the incidents come back unchanged, with or without bounds |
| IncidentService.GetPriorityLabel | src/client/services/IncidentService.js:172-182 | the label is not 'Unknown' exactly when the unwrapped value is a priority code, and it then names that code |
| IncidentService.GetStateLabel | src/client/services/IncidentService.js:187-195 | the label is not 'Unknown' exactly when the unwrapped value is an active state code, and it then names that code |
| IncidentService.LabelsIgnoreWrapping | src/client/services/IncidentService.js:172-195 | a wrapped field and its raw value get the same label, that of the code table |
| Codes.PriorityLabel | src/client/components/FilterBar.jsx:73-82 | 'Unknown' exactly for values outside 1..5, 'Critical' for 1 and 'Planning' for 5 |
| Codes.StateLabel | src/client/components/FilterBar.jsx:84-91 | 'Unknown' exactly for values outside 1..3, 'New' for 1; the other entries are fixed by `Codes.StateTablesInvertible` |
| Codes.PriorityColor | src/client/components/FilterBar.jsx:93-102 | the grey fallback exactly for values outside 1..5 |
| Codes.StateColor | src/client/components/FilterBar.jsx:104-111 | the grey fallback exactly for values outside 1..3; the entries are fixed by `Codes.StateTablesInvertible` |
| Codes.TablesInjective | src/client/components/FilterBar.jsx:73-111 | distinct codes get distinct labels and distinct colours |
| Codes.PriorityTablesInvertible | src/client/components/FilterBar.jsx:73-102 | a priority code is recovered both from its label and from its colour |
| Codes.StateTablesInvertible | src/client/components/FilterBar.jsx:84-111 | a state code is recovered both from its label (New, In Progress, On Hold) and from its colour (blue, orange, purple) |
| Codes.PriorityLabelMatchesColor | src/client/components/IncidentMap.jsx:262-265 | a priority's colour and its label always name the same code, none for a value off the table |
| Codes.PriorityColorOf | src/client/components/IncidentMap.jsx:107-117 | the colour of an unwrapped platform priority code names that code; any other value, a missing one included, is grey |
| Codes.PriorityColorOfIgnoresWrapping | src/client/components/IncidentMap.jsx:107-117 | the map's and the list's colour of a wrapped priority is that of its raw value |
| Records.ReadersAgree | src/client/components/IncidentList.jsx:5-7 | the value and display readers differ exactly on wrapped fields whose two forms differ |
| Records.ValueOf | src/client/components/IncidentList.jsx:73-74 | a missing field reads as undefined, a raw field as itself, a wrapped field as its `value` |
| Records.DisplayOf | src/client/components/IncidentList.jsx:5-7 | a missing field reads as undefined, a raw field as itself, a wrapped field as its `display_value` |
| Records.FindLocation | src/client/components/IncidentMap.jsx:78-81 | the index found is that of the first location whose unwrapped sys_id matches; none is found only when no location matches |
| Records.LocationFor | src/client/components/IncidentList.jsx:45-48 | a location is found exactly when one has the sys_id, and it is the first location in the list with that sys_id |
| Records.LocationDisplayName | src/client/components/IncidentMap.jsx:119-134 | the name followed by " (city, state)", " (city)" or " (state)" for whichever are present, 'Unknown Location' when that is empty; never empty |
| Records.SysIdFromUrl | src/client/components/IncidentMap.jsx:102-105 | a sys_id is read back exactly from strings that start with the record-form prefix |
| Records.IncidentUrl | src/client/components/IncidentMap.jsx:102-105 | the record URL carries exactly the incident's unwrapped sys_id, which `SysIdFromUrl` reads back |
| Records.IncidentUrlInjective | src/client/components/IncidentList.jsx:9-12 | incidents that share a URL share a sys_id |
| Records.IncidentsNoun | src/client/components/LocationFilter.jsx:76 | "incident" exactly when the count is 1, "incidents" otherwise |
| App.FilteredIncidents | src/client/app.jsx:29-65 | the result is at most as long as the input and holds exactly the loaded incidents that pass the search, priority and state tests; with all three filters empty it is the input |
| App.PipelineIsOneFilter | src/client/app.jsx:29-65 | the three filter stages together are one filter by the conjunction of their tests |
| App.PipelinePreservesOrder | src/client/app.jsx:29-65 | the filtered incidents keep their loaded order |
| App.DatesNeverFilter | src/client/app.jsx:29-65 | the date range has no effect on which incidents are shown |
| App.SearchIgnoresCase | src/client/app.jsx:33-44 | searching for the lower-cased text keeps the same incidents |
| App.Dashboard.Visible | src/client/app.jsx:29-65 | the incidents passed to the map and the list are the loaded incidents that pass the current filters, in their loaded order |
| App.Dashboard.constructor | src/client/app.jsx:12-26 | nothing loaded, loading, no error, empty filters, flag off, no bounds |
| App.Dashboard.LoadData | src/client/app.jsx:69-89 | after the load, loading is off; if both fetches succeed, the data is stored and the error cleared; if either fails, the error is the prefixed message and the data is unchanged; the filters are untouched |
| App.Dashboard.HandleFiltersChange | src/client/app.jsx:95-97 | the filters become the new record and nothing else changes |
| App.Dashboard.HandleMapAreaToggle | src/client/app.jsx:100-102 | the flag is negated; nothing else changes, and the shown incidents stay the same |
| App.Dashboard.HandleMapBoundsChange | src/client/app.jsx:105-107 | the bounds are stored; nothing else changes, and the shown incidents stay the same |
| App.Dashboard.HandleClearAll | src/client/app.jsx:110-119 | the filters are emptied and the flag turned off, after which every loaded incident is shown |
| App.Dashboard.Render | src/client/app.jsx:121-161 | the spinner exactly while loading; the error screen exactly when an error is set after loading; otherwise both counts equal the number shown, and the shown incidents are the filtered ones |
| FilterBar.Toggle | src/client/components/FilterBar.jsx:48-62 | the toggled value flips its membership and no other value changes; an absent value is appended at the end; a present value shortens the list |
| FilterBar.ToggleKeepsNoDuplicates | src/client/components/FilterBar.jsx:48-62 | toggling never creates duplicates |
| FilterBar.ToggleKeepsOthers | src/client/components/FilterBar.jsx:48-62 | the other selected values keep their order |
| FilterBar.ToggleTwice | src/client/components/FilterBar.jsx:48-62 | toggling twice restores the set of selected values for any selection, and the exact list when the value was not selected |
| FilterBar.ToggleLength | src/client/components/FilterBar.jsx:48-62 | on a duplicate-free selection a toggle removes or appends exactly one value |
| FilterBar.ActiveCount | src/client/components/FilterBar.jsx:113-114 | the count is zero exactly when every filter is empty, and lies between the number of chips selected and that plus three |
| FilterBar.ChipFor | src/client/components/FilterBar.jsx:136-141 | for a colour other than white and transparent, whether a chip is selected can be read off its fill and off its text colour alike, and the colour always shows in one of the two |
| FilterBar.FilterBarState.constructor | src/client/components/FilterBar.jsx:13-20 | every field starts empty or off |
| FilterBar.FilterBarState.CurrentFilters | src/client/components/FilterBar.jsx:37-45 | the reported record carries the search text, the two selections and the two dates |
| FilterBar.FilterBarState.ActiveFiltersCount | src/client/components/FilterBar.jsx:113-114 | equals `ActiveCount` of the reported record, so zero exactly when that record is empty. The count formula itself is `ActiveCount`'s body; the substance is in the zero law and in the toggle handlers' one-per-toggle change |
| FilterBar.FilterBarState.LoadOptions | src/client/components/FilterBar.jsx:23-34 | the offered priorities and states become the loaded ones; the selections are untouched |
| FilterBar.FilterBarState.HandlePriorityToggle | src/client/components/FilterBar.jsx:48-54 | the priority selection becomes its toggle and nothing else changes; that chip flips and no other chip changes; on a valid state duplicate freedom is kept and the active-filter count moves by exactly one |
| FilterBar.FilterBarState.HandleStateToggle | src/client/components/FilterBar.jsx:56-62 | the state selection becomes its toggle and nothing else changes; that chip flips and no other chip changes; on a valid state duplicate freedom is kept and the active-filter count moves by exactly one |
| FilterBar.FilterBarState.SetSearchText | src/client/components/FilterBar.jsx:124 | only the search text changes |
| FilterBar.FilterBarState.SetDateFrom | src/client/components/FilterBar.jsx:204 | only the start date changes |
| FilterBar.FilterBarState.SetDateTo | src/client/components/FilterBar.jsx:213 | only the end date changes |
| FilterBar.FilterBarState.ToggleAdvanced | src/client/components/FilterBar.jsx:171-172 | only the advanced-panel flag flips |
| FilterBar.FilterBarState.HandleClearAll | src/client/components/FilterBar.jsx:64-71 | the reported record is empty and the count is zero; the offered options are kept |
| FilterBar.FilterBarState.PriorityChip | src/client/components/FilterBar.jsx:132-146 | the chip is active exactly when the priority is selected, which its fill shows; a platform code's chip shows that code's label and colour, any other value 'Unknown' in grey |
| FilterBar.FilterBarState.StateChip | src/client/components/FilterBar.jsx:151-165 | the chip is active exactly when the state is selected, which its fill shows; an active state code's chip shows that code's label and colour, any other value 'Unknown' in grey |
| IncidentMap.MarkerFor | src/client/components/IncidentMap.jsx:75-98 | a marker exists exactly when the incident's location is found and both coordinates are truthy and parse; it then sits at the parsed coordinates of the first matching location |
| IncidentMap.IncidentMarkers | src/client/components/IncidentMap.jsx:74-100 | the markers are exactly those of the incidents that have one, no more than there are incidents |
| IncidentMap.MarkersFollowIncidents | src/client/components/IncidentMap.jsx:74-100 | the markers' incidents are the incidents with coordinates, in input order |
| IncidentMap.Keys | src/client/components/IncidentMap.jsx:140-147 | the group keys are distinct |
| IncidentMap.KeysFirstSeenOrder | src/client/components/IncidentMap.jsx:140-150 | the keys come in first-seen order, the insertion order `Object.values` follows: a key listed before another has a marker before every marker of the other |
| IncidentMap.KeysAreMarkerPositions | src/client/components/IncidentMap.jsx:140-147 | a position is a key exactly when some marker sits there |
| IncidentMap.LocationGroups | src/client/components/IncidentMap.jsx:137-151 | the loop's groups are, in the first-seen order of positions that `IncidentMap.KeysFirstSeenOrder` states, the markers at each position, with the first marker's location |
| IncidentMap.GroupsShape | src/client/components/IncidentMap.jsx:137-151 | every group is non-empty, takes position and location from its first member, holds only markers at its position in input order; no two groups share a position |
| IncidentMap.EachMarkerInOneGroup | src/client/components/IncidentMap.jsx:137-151 | every marker lies in exactly one group |
| IncidentMap.GroupSizesSum | src/client/components/IncidentMap.jsx:137-151 | the group sizes add up to the number of markers |
| IncidentMap.PopupIncidents | src/client/components/IncidentMap.jsx:242 | the popup lists the first five members at most, and all of them when there are five or fewer |
| IncidentMap.MoreLine | src/client/components/IncidentMap.jsx:279-281 | the "more" line appears exactly when a group has more than five members; the listed and the more counts add up to the group size |
| IncidentMap.MoreCount | src/client/components/IncidentMap.jsx:281 | the hidden count is positive exactly when there are more than five members |
| IncidentMap.GroupColor | src/client/components/IncidentMap.jsx:205-208 | a circle has the brand colour exactly when it does not stand for a single incident; a single incident's circle has the colour of its platform priority code, or grey |
| IncidentMap.CircleShowsItsMarkers | src/client/components/IncidentMap.jsx:202-242 | for each circle, the badge counts every marker at its position, at least one, with a singular noun exactly for one; the header names the first such marker's location; the colour is the brand colour exactly unless one marker sits there; the popup lists a prefix of those markers |
| IncidentMap.Item | src/client/components/IncidentMap.jsx:243-276 | a popup line links to its incident's record; its dot colour and the dot's title name the same priority, the incident's own for a platform code; the number is absent when the record has none; the description is never blank |
| ParseInt.TrimStart | src/client/components/IncidentList.jsx:78 | the result is a suffix of the input that does not start with white space, and only white space was dropped |
| ParseInt.DigitPrefix | src/client/components/IncidentList.jsx:78 | the longest prefix of digits in the base |
| ParseInt.NatToDecimal | src/client/components/IncidentList.jsx:78 | the decimal form is non-empty and made of digits |
| ParseInt.DecimalValue | src/client/components/IncidentList.jsx:78 | reading a number's decimal form gives the number back |
| ParseInt.ParseDecimal | src/client/components/IncidentList.jsx:78 | `parseInt` of a decimal form followed by a non-digit gives that number |
| ParseInt.ParseNegativeDecimal | src/client/components/IncidentList.jsx:78 | `parseInt` of a minus sign and a decimal form gives the negative number |
| ParseInt.ParseNeedsDigit | src/client/components/IncidentList.jsx:78 | `parseInt` is NaN on blank text and on text whose first non-space character is neither a sign nor a digit |
| ParseInt.ParseSkipsSpace | src/client/components/IncidentList.jsx:78 | leading white space does not change what `parseInt` reads |
| IncidentList.SortedIncidents | src/client/components/IncidentList.jsx:71-86 | the sorted list is a permutation of the incidents |
| IncidentList.BeforeMeans | src/client/components/IncidentList.jsx:72-85 | on well-formed priorities, one incident sorts first exactly when its priority number is lower, or equal and it was opened later |
| IncidentList.CompareAntisymmetric | src/client/components/IncidentList.jsx:72-85 | swapping two incidents negates the comparison, also when a priority is NaN |
| IncidentList.ComparatorIsStrictOrder | src/client/components/IncidentList.jsx:72-85 | on well-formed priorities the comparator is a strict order |
| IncidentList.SortedByPriorityThenNewest | src/client/components/IncidentList.jsx:70-86 | lower priority numbers come first, and newer incidents first within a priority |
| IncidentList.KnownCodeRank | src/client/components/IncidentList.jsx:78 | each platform priority code parses to its position in the code table |
| IncidentList.KnownCodesWellFormed | src/client/components/IncidentList.jsx:78 | incidents whose priorities are platform codes have well-formed priorities |
| IncidentList.KnownIncidentRank | src/client/components/IncidentList.jsx:73-78 | an incident with a platform priority code has a rank from 1 to 5, the position of that code in the table |
| IncidentList.ListLocationName | src/client/components/IncidentList.jsx:42-68 | the location's display name when it is found, else the reference's display value, else 'No Location'; never empty |
| IncidentList.ListNameMatchesMap | src/client/components/IncidentList.jsx:42-68 | for an incident that has a map marker, the list names the location exactly as the map popup does |
| IncidentList.FormatDate | src/client/components/IncidentList.jsx:26-40 | 'N/A' for a missing or empty date, otherwise the locale's text for it |
| IncidentList.CardFor | src/client/components/IncidentList.jsx:108-175 | a card links to its incident's record; its badge colour and label name the same priority, the incident's own for a platform code; the description, assignee and location texts are never blank; the caller line appears exactly when there is a caller |
| IncidentList.PopupMatchesCard | src/client/components/IncidentList.jsx:108-175 | an incident's popup line on the map and its card in the list show the same number, link, priority colour, priority label and state label, and the same description when it has one |
| IncidentList.View | src/client/components/IncidentList.jsx:88-107 | the empty state exactly when there are no incidents; otherwise as many cards as incidents, every incident has its card, and every card is that of an incident |
| IncidentList.ViewListsByPriority | src/client/components/IncidentList.jsx:70-107 | when every priority is a platform code, the cards run from 'Critical' down to 'Planning' |
| LocationFilter.LocationOptions | src/client/components/LocationFilter.jsx:51-59 | an 'All Locations' entry with empty value, then one entry per location in input order, valued by its sys_id and labelled by its display name |
| LocationFilter.SelectedLocation | src/client/components/LocationFilter.jsx:33-37 | nothing when the selection is falsy; otherwise the first location with that sys_id, and nothing only when none has it |
| LocationFilter.SelectedLabel | src/client/components/LocationFilter.jsx:77 | the selected location's display name, or 'Selected Location' when the selection matches nothing |
| LocationFilter.Render | src/client/components/LocationFilter.jsx:62-83 | the clear button and the "for" line appear together, exactly when something is selected; the line then names the selected location as its drop-down entry does; the noun is singular exactly for a count of 1 |
| LocationFilter.AllLocationsSelectsNothing | src/client/components/LocationFilter.jsx:51 | choosing 'All Locations' selects no location |
| LocationFilter.OptionSelectsItsLocation | src/client/components/LocationFilter.jsx:33-59 | choosing a location's entry selects a location with its sys_id, and that very location when sys_ids are distinct |
| LocationFilter.RenderAfterChoosing | src/client/components/LocationFilter.jsx:33-83 | after choosing 'All Locations' the total line shows and no clear button; after choosing a location's entry, with distinct sys_ids, the clear button shows and the line names that location |
| Sorting.InsertionSort | src/client/components/IncidentList.jsx:72 | the sort returns a permutation of its input |
| Sorting.InsertionSortSorted | src/client/components/IncidentList.jsx:72 | under a strict order the result is sorted |
| Sorting.InsertionSortNoDuplicates | src/client/services/IncidentService.js:134 | sorting keeps duplicate freedom |
| StringOrder.StrLess | src/client/services/IncidentService.js:134 | the default sort order never puts a string before itself, and puts a proper prefix before every longer string it begins |
| StringOrder.StrLessTransitive | src/client/services/IncidentService.js:134 | the default string order is transitive |
| StringOrder.StrLessTotal | src/client/services/IncidentService.js:134 | any two distinct strings are ordered one way or the other |
| Common.Dedup | src/client/services/IncidentService.js:83-87 | `[...new Set(xs)]` has no duplicates and the same elements as its input |
| Common.DedupKeepsFirstOrder | src/client/services/IncidentService.js:87 | `[...new Set(xs)]` keeps first occurrences in insertion order: an element listed before another occurs in the input before any occurrence of the other |
| Common.Lower | src/client/app.jsx:34-41 | ASCII `toLowerCase`: the same length, no capital A-Z left, capitals moved to their small letters, every other character unchanged |
| Common.Filter | src/client/app.jsx:35-61 | the kept elements are exactly the ones that pass |
| Common.FilterCounts | src/client/app.jsx:35-61 | filtering keeps each passing element as many times as it occurs, and no other element |
| Common.SplitJoin | src/client/services/IncidentService.js:20-51 | splitting a join at its separator gives the list back when no element contains the separator |
| Common.ContainsAtOffset | src/client/app.jsx:41-42 | `includes` holds exactly when the text occurs at some offset |

## Left out

- Network I/O is not modelled: `fetch`, the request headers, the `window.g_ck` token, HTTP error mapping, `data.result || []` and the `URLSearchParams` percent-encoding (src/client/services/IncidentService.js:8-18, 53-76, 93-122). A fetch is a `Result` given as input, and the query is modelled unencoded.
- `listActiveIncidentLocations` fetches the incidents a second time (src/client/services/IncidentService.js:82). The model takes the incidents as input, builds the id list and lookup query from them, and leaves the second fetch out.
- React plumbing is not modelled: JSX markup, CSS, `useMemo`, `useCallback`, the effect that reports filters, and the timing of the loading flag. Component state is class fields and each handler is a method. The reload button and console logging are left out.
- The map's Leaflet calls are left out because they go to a library outside the repository: `MapBoundsController` (src/client/components/IncidentMap.jsx:17-64), the tile layer and the container, the marker radius from `Math.log2` (line 203) and the ×1.2 hover scaling (line 224).
- Lines 188-201 of src/client/components/IncidentMap.jsx are a duplicated fragment that does not parse; the model follows lines 74-151 and 202-283.
- `parseFloat`, `new Date` and `toLocaleDateString` are parameters. NaN dates and locale formatting are not modelled.
- IncidentList.SortedByPriorityThenNewest: sortedness is proved only for well-formed priorities, where every priority parses and equal numbers mean equal strings. Outside that, the JavaScript comparator is not a consistent order, since a NaN difference counts as 0 and "1" and "01" compare equal yet differ. Stability of the sort is not stated.
- Common.Lower: `toLowerCase` is modelled on ASCII letters only; Unicode case folding is not modelled.
- StringOrder.StrLess compares code points, where JavaScript's default sort compares UTF-16 code units. The two orders differ only above the Basic Multilingual Plane.
- A JavaScript `null` field is not modelled: `typeof null` is `'object'`, so the source would fail on `.value`.
- The label and colour tables are modelled as plain lookups. A value such as `constructor`, which JavaScript would find on the object's prototype, is not modelled.
- Group keys are the coordinate pair. The source keys groups by the string `${lat},${lng}`, which also merges `-0` with `0`; that merge is not modelled.
- The map's fallbacks for a missing service (`incidentService?.getPriorityLabel`, 'Priority' and 'Unknown State', src/client/components/IncidentMap.jsx:264-273) are not modelled: the root view always passes the service (src/client/app.jsx:169).
- `mapAreaFilterActive` and `mapBounds` are stored and passed on but never filter anything (src/client/app.jsx:100-107, src/client/services/IncidentService.js:152-166), and the model says so.
- The location filter component is not used by the root view; it is modelled on its own props. Its change handler only forwards the chosen value and is not modelled.
- The `parseInt` model covers what the list passes it, a string with no radix: leading whitespace, a sign, a `0x` hex prefix and the leading digits.
- src/fluent/generated/keys.ts and src/fluent/ui-pages/incident-location-map.now.ts are platform registration declarations with no behaviour; they are not part of this model.
