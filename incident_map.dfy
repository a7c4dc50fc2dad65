/** The map: each incident joined to its location's coordinates as a marker,
    the markers grouped by position into one circle per place, and what a
    circle's colour and popup show. Coordinates are abstract: `parse` stands
    for `parseFloat`, giving `None` for NaN. */
module IncidentMap {
  import opened Common
  import opened Records
  import Codes
  import IncidentService

  /** `{...incident, position, location}`. */
  datatype Marker<C> = Marker(incident: Incident, position: (C, C), location: Location)

  /** Both coordinates are present, non-empty and parse as numbers. */
  predicate HasCoordinates<C>(loc: Location, parse: string -> Option<C>) {
    var lat := DisplayOf(loc.latitude);
    var lng := DisplayOf(loc.longitude);
    Truthy(lat) && Truthy(lng) && parse(lat.value).Some? && parse(lng.value).Some?
  }

  /** `j` is the first location whose unwrapped sys_id is `id`. */
  ghost predicate FirstMatch(locations: seq<Location>, id: Option<string>, j: int) {
    && 0 <= j < |locations|
    && ValueOf(locations[j].sysId) == id
    && forall k :: 0 <= k < j ==> ValueOf(locations[k].sysId) != id
  }

  /** The marker of one incident, if its location is found and has usable
      coordinates. */
  function MarkerFor<C>(incident: Incident, locations: seq<Location>, parse: string -> Option<C>): (m: Option<Marker<C>>)
    ensures m.Some? <==>
              exists j :: FirstMatch(locations, ValueOf(incident.location), j) && HasCoordinates(locations[j], parse)
    ensures m.Some? ==>
              && m.value.incident == incident
              && (exists j :: FirstMatch(locations, ValueOf(incident.location), j) && m.value.location == locations[j])
              && m.value.position == (parse(DisplayOf(m.value.location.latitude).value).value,
                                      parse(DisplayOf(m.value.location.longitude).value).value)
  {
    var id := ValueOf(incident.location);
    match FindLocation(locations, id)
    case None => None
    case Some(j) =>
      assert FirstMatch(locations, id, j);
      assert forall j' :: FirstMatch(locations, id, j') ==> j' == j;
      var location := locations[j];
      if !HasCoordinates(location, parse) then None
      else
        var lat := DisplayOf(location.latitude).value;
        var lng := DisplayOf(location.longitude).value;
        Some(Marker(incident, (parse(lat).value, parse(lng).value), location))
  }

  /** `incidentMarkers`: the markers of the incidents that have one. */
  function IncidentMarkers<C>(incidents: seq<Incident>, locations: seq<Location>, parse: string -> Option<C>)
    : (r: seq<Marker<C>>)
    ensures |r| <= |incidents|
    ensures forall m :: m in r ==> m.incident in incidents && MarkerFor(m.incident, locations, parse) == Some(m)
    ensures forall i :: i in incidents && MarkerFor(i, locations, parse).Some? ==> MarkerFor(i, locations, parse).value in r
  {
    if |incidents| == 0 then []
    else
      var rest := IncidentMarkers(incidents[1..], locations, parse);
      assert forall i :: i in incidents ==> i == incidents[0] || i in incidents[1..];
      match MarkerFor(incidents[0], locations, parse)
      case None => rest
      case Some(m) => [m] + rest
  }

  function MarkerIncidents<C>(markers: seq<Marker<C>>): (r: seq<Incident>)
    ensures |r| == |markers|
  {
    seq(|markers|, j requires 0 <= j < |markers| => markers[j].incident)
  }

  /** The markers follow the incidents' order: their incidents are exactly
      the incidents that have a marker. */
  lemma {:induction false} MarkersFollowIncidents<C>(incidents: seq<Incident>, locations: seq<Location>,
                                                    parse: string -> Option<C>)
    ensures MarkerIncidents(IncidentMarkers(incidents, locations, parse))
            == Filter(incidents, (i: Incident) => MarkerFor(i, locations, parse).Some?)
  {
    if |incidents| > 0 {
      var has := (i: Incident) => MarkerFor(i, locations, parse).Some?;
      MarkersFollowIncidents(incidents[1..], locations, parse);
      var rest := IncidentMarkers(incidents[1..], locations, parse);
      assert Filter(incidents, has) == (if has(incidents[0]) then [incidents[0]] else []) + Filter(incidents[1..], has);
      if has(incidents[0]) {
        var m := MarkerFor(incidents[0], locations, parse).value;
        assert IncidentMarkers(incidents, locations, parse) == [m] + rest;
        MarkerIncidentsCons(m, rest);
      }
    }
  }

  lemma MarkerIncidentsCons<C>(m: Marker<C>, rest: seq<Marker<C>>)
    ensures MarkerIncidents([m] + rest) == [m.incident] + MarkerIncidents(rest)
  {
  }

  /** A circle: the position and location of its first marker, and its markers. */
  datatype Group<C> = Group(position: (C, C), location: Location, members: seq<Marker<C>>)

  function Positions<C>(markers: seq<Marker<C>>): (r: seq<(C, C)>)
    ensures |r| == |markers|
  {
    seq(|markers|, j requires 0 <= j < |markers| => markers[j].position)
  }

  /** The group keys in order of first appearance (the insertion order
      `Object.values` follows). */
  function Keys<C(==)>(markers: seq<Marker<C>>): (r: seq<(C, C)>)
    ensures NoDuplicates(r)
  {
    Dedup(Positions(markers))
  }

  /** Keys come in first-seen order: a key listed before another has a
      marker earlier than every marker of the other. */
  lemma KeysFirstSeenOrder<C>(markers: seq<Marker<C>>)
    ensures forall i, j :: 0 <= i < j < |Keys(markers)| ==>
              exists a :: 0 <= a < |markers| && markers[a].position == Keys(markers)[i] &&
                          forall b :: 0 <= b <= a ==> markers[b].position != Keys(markers)[j]
  {
    var ps, keys := Positions(markers), Keys(markers);
    assert keys == Dedup(ps);
    forall i, j | 0 <= i < j < |keys|
      ensures exists a :: 0 <= a < |markers| && markers[a].position == keys[i] &&
                          forall b :: 0 <= b <= a ==> markers[b].position != keys[j]
    {
      DedupKeepsFirstOrder(ps, i, j);
      var a :| 0 <= a < |ps| && ps[a] == keys[i] && forall b :: 0 <= b <= a ==> ps[b] != keys[j];
      forall b | 0 <= b <= a ensures markers[b].position != keys[j] {
        assert ps[b] == markers[b].position;
      }
      assert markers[a].position == keys[i];
    }
  }

  function MembersAt<C(==)>(markers: seq<Marker<C>>, k: (C, C)): seq<Marker<C>> {
    Filter(markers, (m: Marker<C>) => m.position == k)
  }

  /** Stands in for the location of a key no marker has. */
  const NoLocation: Location := Location(Absent, Absent, Absent, Absent, Absent, Absent)

  /** The group of key `k`: the markers at `k` in input order, placed at `k`
      with the first one's location. */
  function GroupOf<C(==)>(markers: seq<Marker<C>>, k: (C, C)): Group<C> {
    var members := MembersAt(markers, k);
    Group(k, if |members| > 0 then members[0].location else NoLocation, members)
  }

  /** The groups `locationGroups` returns. */
  function GroupsSpec<C(==)>(markers: seq<Marker<C>>): (r: seq<Group<C>>)
    ensures |r| == |Keys(markers)|
  {
    var keys := Keys(markers);
    seq(|keys|, j requires 0 <= j < |keys| => GroupOf(markers, keys[j]))
  }

  lemma PositionsSnoc<C>(markers: seq<Marker<C>>, m: Marker<C>)
    ensures Positions(markers + [m]) == Positions(markers) + [m.position]
  {
  }

  lemma KeysSnoc<C>(markers: seq<Marker<C>>, m: Marker<C>)
    ensures Keys(markers + [m]) == if m.position in Keys(markers) then Keys(markers) else Keys(markers) + [m.position]
  {
    PositionsSnoc(markers, m);
    var ps := Positions(markers + [m]);
    assert ps[..|ps| - 1] == Positions(markers);
  }

  /** A key is a group key exactly when some marker sits there. */
  lemma KeysAreMarkerPositions<C>(markers: seq<Marker<C>>, k: (C, C))
    ensures k in Keys(markers) <==> |MembersAt(markers, k)| > 0
  {
    var ps := Positions(markers);
    if k in Keys(markers) {
      assert k in ps;
      var j :| 0 <= j < |ps| && ps[j] == k;
      assert markers[j] in markers;
    }
    if |MembersAt(markers, k)| > 0 {
      var m := MembersAt(markers, k)[0];
      assert m in MembersAt(markers, k);
      var j :| 0 <= j < |markers| && markers[j] == m;
      assert ps[j] == k;
    }
  }

  lemma GroupOfSnoc<C>(markers: seq<Marker<C>>, m: Marker<C>, k: (C, C))
    ensures GroupOf(markers + [m], k) ==
              if m.position != k then GroupOf(markers, k)
              else if k in Keys(markers) then GroupOf(markers, k).(members := GroupOf(markers, k).members + [m])
              else Group(k, m.location, [m])
  {
    var at := (x: Marker<C>) => x.position == k;
    FilterConcat(markers, [m], at);
    KeysAreMarkerPositions(markers, k);
  }

  /** `locationGroups`: one pass over the markers filling a dictionary keyed
      by position, then its values in insertion order. */
  method LocationGroups<C(==)>(markers: seq<Marker<C>>) returns (groups: seq<Group<C>>)
    ensures groups == GroupsSpec(markers)
  {
    var table: map<(C, C), Group<C>> := map[];
    var keys: seq<(C, C)> := [];
    for i := 0 to |markers|
      invariant keys == Keys(markers[..i])
      invariant forall k :: k in table <==> k in keys
      invariant forall k :: k in table ==> table[k] == GroupOf(markers[..i], k)
    {
      var marker := markers[i];
      var locationKey := marker.position;
      ghost var before := table;
      assert markers[..i + 1] == markers[..i] + [marker];
      KeysSnoc(markers[..i], marker);
      if locationKey !in table {
        table := table[locationKey := Group(marker.position, marker.location, [])];
        keys := keys + [locationKey];
      }
      var group := table[locationKey];
      table := table[locationKey := group.(members := group.members + [marker])];
      forall k | k in table ensures table[k] == GroupOf(markers[..i + 1], k) {
        GroupOfSnoc(markers[..i], marker, k);
        if k != locationKey {
          assert table[k] == before[k];
        }
      }
    }
    assert markers[..|markers|] == markers;
    groups := seq(|keys|, j requires 0 <= j < |keys| => table[keys[j]]);
  }

  /** Every group is non-empty, all its markers share its position, its
      location is its first marker's, and its markers keep their input
      order; distinct groups have distinct positions. */
  lemma GroupsShape<C>(markers: seq<Marker<C>>)
    ensures var gs := GroupsSpec(markers);
            && (forall j :: 0 <= j < |gs| ==>
                  && |gs[j].members| > 0
                  && gs[j].position == gs[j].members[0].position
                  && gs[j].location == gs[j].members[0].location
                  && (forall m :: m in gs[j].members ==> m.position == gs[j].position)
                  && IsSubsequence(gs[j].members, markers))
            && (forall j1, j2 :: 0 <= j1 < j2 < |gs| ==> gs[j1].position != gs[j2].position)
  {
    var gs := GroupsSpec(markers);
    var keys := Keys(markers);
    forall j | 0 <= j < |gs|
      ensures |gs[j].members| > 0 && gs[j].position == gs[j].members[0].position
      ensures IsSubsequence(gs[j].members, markers)
    {
      KeysAreMarkerPositions(markers, keys[j]);
      assert gs[j].members[0] in gs[j].members;
      FilterIsSubsequence(markers, (m: Marker<C>) => m.position == keys[j]);
    }
  }

  /** Every marker lands in exactly one group. */
  lemma EachMarkerInOneGroup<C>(markers: seq<Marker<C>>)
    ensures var gs := GroupsSpec(markers);
            && (forall i :: 0 <= i < |markers| ==> exists j :: 0 <= j < |gs| && markers[i] in gs[j].members)
            && (forall i, j1, j2 ::
                  (0 <= i < |markers| && 0 <= j1 < |gs| && 0 <= j2 < |gs|
                   && markers[i] in gs[j1].members && markers[i] in gs[j2].members) ==> j1 == j2)
  {
    var gs := GroupsSpec(markers);
    var keys := Keys(markers);
    forall i | 0 <= i < |markers| ensures exists j :: 0 <= j < |gs| && markers[i] in gs[j].members {
      var k := markers[i].position;
      assert markers[i] in markers;
      assert markers[i] in MembersAt(markers, k);
      KeysAreMarkerPositions(markers, k);
      var j :| 0 <= j < |keys| && keys[j] == k;
      assert markers[i] in gs[j].members;
    }
    GroupsShape(markers);
  }

  /** The number of markers at each key of `keys`, summed. */
  function CountSum<C(==)>(markers: seq<Marker<C>>, keys: seq<(C, C)>): nat {
    if |keys| == 0 then 0 else |MembersAt(markers, keys[0])| + CountSum(markers, keys[1..])
  }

  /** How often `x` occurs in `keys`. */
  function Hits<C(==)>(x: (C, C), keys: seq<(C, C)>): nat {
    if |keys| == 0 then 0 else (if keys[0] == x then 1 else 0) + Hits(x, keys[1..])
  }

  lemma {:induction false} HitsOnce<C>(x: (C, C), keys: seq<(C, C)>)
    requires NoDuplicates(keys) && x in keys
    ensures Hits(x, keys) == 1
  {
    if keys[0] == x {
      HitsNone(x, keys[1..]);
    } else {
      HitsOnce(x, keys[1..]);
    }
  }

  lemma {:induction false} HitsNone<C>(x: (C, C), keys: seq<(C, C)>)
    requires x !in keys
    ensures Hits(x, keys) == 0
  {
    if |keys| > 0 {
      HitsNone(x, keys[1..]);
    }
  }

  lemma {:induction false} CountSumCons<C>(m: Marker<C>, rest: seq<Marker<C>>, keys: seq<(C, C)>)
    ensures CountSum([m] + rest, keys) == CountSum(rest, keys) + Hits(m.position, keys)
  {
    if |keys| > 0 {
      CountSumCons(m, rest, keys[1..]);
      assert ([m] + rest)[1..] == rest;
    }
  }

  /** Counting at distinct keys that cover every marker counts each marker once. */
  lemma {:induction false} CountSumCovers<C>(markers: seq<Marker<C>>, keys: seq<(C, C)>)
    requires NoDuplicates(keys)
    requires forall i :: 0 <= i < |markers| ==> markers[i].position in keys
    ensures CountSum(markers, keys) == |markers|
  {
    if |markers| == 0 {
      CountSumEmpty(keys);
    } else {
      CountSumCovers(markers[1..], keys);
      assert [markers[0]] + markers[1..] == markers;
      CountSumCons(markers[0], markers[1..], keys);
      HitsOnce(markers[0].position, keys);
    }
  }

  lemma {:induction false} CountSumEmpty<C>(keys: seq<(C, C)>)
    ensures CountSum([], keys) == 0
  {
    if |keys| > 0 {
      CountSumEmpty(keys[1..]);
    }
  }

  function SizeSum<C>(groups: seq<Group<C>>): nat {
    if |groups| == 0 then 0 else |groups[0].members| + SizeSum(groups[1..])
  }

  lemma {:induction false} SizeSumOfGroups<C>(markers: seq<Marker<C>>, keys: seq<(C, C)>)
    ensures SizeSum(seq(|keys|, j requires 0 <= j < |keys| => GroupOf(markers, keys[j]))) == CountSum(markers, keys)
  {
    if |keys| > 0 {
      var gs := seq(|keys|, j requires 0 <= j < |keys| => GroupOf(markers, keys[j]));
      var tail := keys[1..];
      SizeSumOfGroups(markers, tail);
      assert gs[1..] == seq(|tail|, j requires 0 <= j < |tail| => GroupOf(markers, tail[j]));
    }
  }

  /** The group sizes add up to the number of markers. */
  lemma GroupSizesSum<C>(markers: seq<Marker<C>>)
    ensures SizeSum(GroupsSpec(markers)) == |markers|
  {
    var keys := Keys(markers);
    SizeSumOfGroups(markers, keys);
    forall i | 0 <= i < |markers| ensures markers[i].position in keys {
      assert Positions(markers)[i] == markers[i].position;
    }
    CountSumCovers(markers, keys);
  }

  /** At most five incidents are listed in a popup. */
  const PopupLimit: nat := 5

  /** `group.incidents.slice(0, 5)`. */
  function PopupIncidents<C>(g: Group<C>): (r: seq<Marker<C>>)
    ensures |r| <= PopupLimit
    ensures r <= g.members
    ensures |g.members| <= PopupLimit ==> r == g.members
  {
    if |g.members| <= PopupLimit then g.members else g.members[..PopupLimit]
  }

  /** The "... and N more" line, present when the popup leaves markers out. */
  function MoreLine<C>(g: Group<C>): (r: Option<string>)
    ensures r.Some? <==> |g.members| > PopupLimit
    ensures r.Some? ==> |PopupIncidents(g)| + MoreCount(g) == |g.members|
    ensures r.Some? ==> r.value == IncidentsNoun(MoreCount(g))
  {
    if |g.members| > PopupLimit then Some(IncidentsNoun(MoreCount(g))) else None
  }

  /** `incidentCount - 5`, or 0 when nothing is left out. */
  function MoreCount<C>(g: Group<C>): (n: nat)
    ensures n > 0 <==> |g.members| > PopupLimit
  {
    if |g.members| > PopupLimit then |g.members| - PopupLimit else 0
  }

  /** A lone incident's circle takes its priority colour; a group takes the
      brand colour. */
  function GroupColor<C>(g: Group<C>): (r: string)
    ensures r == "var(--brand)" <==> |g.members| != 1
    ensures |g.members| == 1 ==>
              var p := ValueOf(g.members[0].incident.priority);
              && (p.Some? && p.value in Codes.PriorityCodes ==> Codes.PriorityCodeOfColor(r) == p.value)
              && (!(p.Some? && p.value in Codes.PriorityCodes) ==> r == "#666")
  {
    if |g.members| == 1 then Codes.PriorityColorOf(g.members[0].incident.priority) else "var(--brand)"
  }

  /** The popup header: the location's display name and the pluralised count. */
  datatype PopupHeader = PopupHeader(title: string, count: nat, noun: string)

  function Header<C>(g: Group<C>): (h: PopupHeader)
    ensures h.title == LocationDisplayName(g.location) && h.title != ""
    ensures h.count == |g.members| && (h.noun == "incident" <==> h.count == 1)
  {
    PopupHeader(LocationDisplayName(g.location), |g.members|, IncidentsNoun(|g.members|))
  }

  /** Each circle of the map, read against the markers: its badge counts
      every marker at its position, at least one; its header names the
      location of the first of them; it is coloured by priority exactly when
      it stands for one marker alone; and its popup lists the first five of
      those markers. */
  lemma CircleShowsItsMarkers<C>(markers: seq<Marker<C>>, j: nat)
    requires j < |GroupsSpec(markers)|
    ensures var g := GroupsSpec(markers)[j];
            var here := MembersAt(markers, g.position);
            && Header(g).count == |here| > 0
            && Header(g).title == LocationDisplayName(here[0].location)
            && (Header(g).noun == "incident" <==> |here| == 1)
            && (GroupColor(g) == "var(--brand)" <==> |here| != 1)
            && PopupIncidents(g) <= here
  {
    var keys := Keys(markers);
    var g := GroupsSpec(markers)[j];
    assert g == GroupOf(markers, keys[j]);
    KeysAreMarkerPositions(markers, keys[j]);
  }

  /** One incident line of a popup. `number` is the display value, `None`
      when the record has none, which React renders as nothing. */
  datatype PopupItem = PopupItem(number: Option<string>, url: string, color: string, priorityTitle: string,
                                 description: string, stateLabel: string)

  /** A popup line links to its incident's record; its dot and the dot's
      title name the same priority, the incident's own when it is a platform
      code; its description is never blank. */
  function Item<C>(m: Marker<C>): (r: PopupItem)
    ensures r.number == DisplayOf(m.incident.number)
    ensures SysIdFromUrl(r.url) == Some(JsString(ValueOf(m.incident.sysId)))
    ensures Codes.PriorityCodeOfColor(r.color) == Codes.PriorityCodeOfLabel(r.priorityTitle)
    ensures ValueOf(m.incident.priority).Some? && ValueOf(m.incident.priority).value in Codes.PriorityCodes ==>
              Codes.PriorityCodeOfLabel(r.priorityTitle) == ValueOf(m.incident.priority).value
    ensures r.stateLabel == IncidentService.GetStateLabel(m.incident.state)
    ensures r.description != ""
    ensures Truthy(DisplayOf(m.incident.shortDescription)) ==> r.description == DisplayOf(m.incident.shortDescription).value
  {
    var shortDesc := DisplayOf(m.incident.shortDescription);
    Codes.PriorityLabelMatchesColor(JsString(ValueOf(m.incident.priority)));
    PopupItem(
      DisplayOf(m.incident.number),
      IncidentUrl(m.incident),
      Codes.PriorityColorOf(m.incident.priority),
      IncidentService.GetPriorityLabel(m.incident.priority),
      if Truthy(shortDesc) then shortDesc.value else "No description",
      IncidentService.GetStateLabel(m.incident.state))
  }
}
