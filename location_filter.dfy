/** The location filter: a drop-down of the loaded locations, the lookup of
    the selected one and the "Showing … incidents" line beneath it. */
module LocationFilter {
  import opened Common
  import opened Records

  /** One `<option>` of the drop-down. `None` as value is a location without a
      sys_id, whose option carries no value attribute. */
  datatype SelectOption = SelectOption(value: Option<string>, text: string)

  const AllLocationsText: string := "All Locations"
  const SelectedLocationFallback: string := "Selected Location"

  /** The "All Locations" entry that opens the list; it selects nothing. */
  const AllLocationsOption: SelectOption := SelectOption(Some(""), AllLocationsText)

  /** The option offered for one location: its unwrapped sys_id and display name. */
  function OptionFor(loc: Location): (o: SelectOption)
    ensures o.text != ""
  {
    SelectOption(ValueOf(loc.sysId), LocationDisplayName(loc))
  }

  /** The drop-down: the "All Locations" entry, then one entry per location in
      the order given. */
  function LocationOptions(locations: seq<Location>): (r: seq<SelectOption>)
    ensures |r| == |locations| + 1
    ensures r[0] == AllLocationsOption
    ensures forall i :: 0 < i < |r| ==>
              r[i].value == ValueOf(locations[i - 1].sysId)
              && r[i].text == LocationDisplayName(locations[i - 1])
    ensures forall i :: 0 <= i < |r| ==> r[i].text != ""
  {
    [AllLocationsOption] + Entries(locations)
  }

  /** One option per location, in the order given. */
  function Entries(locations: seq<Location>): (r: seq<SelectOption>)
    ensures |r| == |locations|
    ensures forall i :: 0 <= i < |locations| ==> r[i] == OptionFor(locations[i])
  {
    seq(|locations|, i requires 0 <= i < |locations| => OptionFor(locations[i]))
  }

  /** `selectedLocationName`: nothing when the selection is falsy, otherwise
      the first location whose unwrapped sys_id equals the selection. */
  function SelectedLocation(locations: seq<Location>, selected: Option<string>): (r: Option<Location>)
    ensures !Truthy(selected) ==> r == None
    ensures r.Some? ==>
              exists j :: 0 <= j < |locations| && locations[j] == r.value
                          && ValueOf(locations[j].sysId) == selected
                          && forall k :: 0 <= k < j ==> ValueOf(locations[k].sysId) != selected
    ensures Truthy(selected) && r.None? ==>
              forall j :: 0 <= j < |locations| ==> ValueOf(locations[j].sysId) != selected
  {
    if Truthy(selected) then
      match FindLocation(locations, selected)
      case None => None
      case Some(k) => Some(locations[k])
    else None
  }

  /** The name in bold after "for": the selected location's display name, or
      the fallback when the selection matches no location. */
  function SelectedLabel(locations: seq<Location>, selected: Option<string>): (r: string)
    ensures r != ""
    ensures SelectedLocation(locations, selected).None? ==> r == SelectedLocationFallback
    ensures SelectedLocation(locations, selected).Some? ==>
              r == LocationDisplayName(SelectedLocation(locations, selected).value)
  {
    match SelectedLocation(locations, selected)
    case None => SelectedLocationFallback
    case Some(loc) => LocationDisplayName(loc)
  }

  /** The line beneath the drop-down. */
  datatype Summary =
    | FilteredSummary(count: int, noun: string, locationName: string)
    | TotalSummary(count: int, noun: string)

  /** What the component renders: the drop-down, whether the "Clear Filter"
      button is shown, and the information line. */
  datatype View = View(options: seq<SelectOption>, clearButton: bool, summary: Summary)

  /** The clear button and the "for …" line appear together, exactly when a
      location is selected; the line then names the selected location the
      way its entry in the drop-down does, and the noun is singular exactly
      for one incident. */
  function Render(locations: seq<Location>, selected: Option<string>, incidentCount: int): (r: View)
    ensures r.options == LocationOptions(locations)
    ensures r.clearButton <==> Truthy(selected)
    ensures r.summary.FilteredSummary? <==> r.clearButton
    ensures r.summary.count == incidentCount
    ensures r.summary.noun == "incident" <==> incidentCount == 1
    ensures r.summary.FilteredSummary? ==> r.summary.locationName == SelectedLabel(locations, selected)
    ensures r.summary.FilteredSummary? && SelectedLocation(locations, selected).Some? ==>
              exists i :: 0 < i < |r.options| && r.options[i].value == selected
                          && r.options[i].text == r.summary.locationName
  {
    var noun := IncidentsNoun(incidentCount);
    var summary :=
      if Truthy(selected) then FilteredSummary(incidentCount, noun, SelectedLabel(locations, selected))
      else TotalSummary(incidentCount, noun);
    SelectedEntryNamesLocation(locations, selected);
    View(LocationOptions(locations), Truthy(selected), summary)
  }

  /** The selected location has an entry whose value is the selection and
      whose text is the summary's name. */
  lemma SelectedEntryNamesLocation(locations: seq<Location>, selected: Option<string>)
    ensures SelectedLocation(locations, selected).Some? ==>
              var options := LocationOptions(locations);
              exists i :: 0 < i < |options| && options[i].value == selected
                          && options[i].text == SelectedLabel(locations, selected)
  {
    if SelectedLocation(locations, selected).Some? {
      var k := FindLocation(locations, selected).value;
      var options := LocationOptions(locations);
      assert options[k + 1].value == selected && options[k + 1].text == SelectedLabel(locations, selected);
    }
  }

  /** Picking an entry and rendering: 'All Locations' shows the total line
      and no clear button; a location's entry, when sys_ids are distinct,
      shows the clear button and a line naming that location. */
  lemma RenderAfterChoosing(locations: seq<Location>, i: nat, incidentCount: int)
    requires i <= |locations|
    requires 0 < i ==> Truthy(ValueOf(locations[i - 1].sysId)) && DistinctIds(locations)
    ensures var r := Render(locations, LocationOptions(locations)[i].value, incidentCount);
            && (i == 0 ==> !r.clearButton && r.summary == TotalSummary(incidentCount, IncidentsNoun(incidentCount)))
            && (0 < i ==> r.clearButton && r.summary.FilteredSummary?
                          && r.summary.locationName == LocationDisplayName(locations[i - 1]))
  {
    if 0 < i {
      OptionSelectsItsLocation(locations, i - 1);
    }
  }

  /** Choosing the "All Locations" entry selects no location. */
  lemma AllLocationsSelectsNothing(locations: seq<Location>)
    ensures SelectedLocation(locations, LocationOptions(locations)[0].value) == None
    ensures SelectedLabel(locations, LocationOptions(locations)[0].value) == SelectedLocationFallback
  {
  }

  ghost predicate DistinctIds(locations: seq<Location>) {
    forall i, j :: 0 <= i < j < |locations| ==> ValueOf(locations[i].sysId) != ValueOf(locations[j].sysId)
  }

  /** Choosing the entry of a location with a non-empty sys_id selects that
      location, and the summary then names it, provided no two locations share
      a sys_id; with shared ids the first of them is selected. */
  lemma OptionSelectsItsLocation(locations: seq<Location>, i: nat)
    requires i < |locations|
    requires Truthy(ValueOf(locations[i].sysId))
    ensures var chosen := SelectedLocation(locations, LocationOptions(locations)[i + 1].value);
            && chosen.Some?
            && ValueOf(chosen.value.sysId) == ValueOf(locations[i].sysId)
            && (DistinctIds(locations) ==> chosen == Some(locations[i]))
    ensures DistinctIds(locations) ==>
              SelectedLabel(locations, LocationOptions(locations)[i + 1].value) == LocationDisplayName(locations[i])
  {
    var id := ValueOf(locations[i].sysId);
    assert LocationOptions(locations)[i + 1].value == id;
    match FindLocation(locations, id)
    case None =>
    case Some(k) =>
      assert k <= i;
  }
}
