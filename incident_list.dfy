/** `parseInt` as the list's comparator uses it: leading white space, an
    optional sign, then the longest run of digits, in base 16 after a "0x"
    or "0X" prefix and in base 10 otherwise; no digit gives NaN (`None`). */
module ParseInt {
  import opened Common

  /** The white space `parseInt` skips (the ECMAScript WhiteSpace and
      LineTerminator characters). */
  predicate IsSpace(c: char) {
    var n := c as int;
    n == 0x20 || 0x09 <= n <= 0x0D || n == 0xA0 || n == 0x1680 || 0x2000 <= n <= 0x200A
    || n == 0x2028 || n == 0x2029 || n == 0x202F || n == 0x205F || n == 0x3000 || n == 0xFEFF
  }

  ghost predicate AllSpace(t: string) {
    forall i :: 0 <= i < |t| ==> IsSpace(t[i])
  }

  predicate IsDecimalDigit(c: char) {
    '0' <= c <= '9'
  }

  predicate IsDigitIn(c: char, base: nat) {
    if base == 16 then IsDecimalDigit(c) || 'a' <= c <= 'f' || 'A' <= c <= 'F'
    else IsDecimalDigit(c)
  }

  function DigitValue(c: char): nat {
    if IsDecimalDigit(c) then c as int - '0' as int
    else if 'a' <= c <= 'f' then c as int - 'a' as int + 10
    else if 'A' <= c <= 'F' then c as int - 'A' as int + 10
    else 0
  }

  /** The input without its leading white space: a suffix that does not start
      with white space, after only white space was dropped. */
  function TrimStart(s: string): (r: string)
    ensures |r| <= |s| && r == s[|s| - |r|..]
    ensures |r| > 0 ==> !IsSpace(r[0])
    ensures AllSpace(s[..|s| - |r|])
  {
    if |s| > 0 && IsSpace(s[0]) then TrimStart(s[1..]) else s
  }

  /** The longest prefix of digits of the base. */
  function DigitPrefix(s: string, base: nat): (r: string)
    ensures r <= s
    ensures forall i :: 0 <= i < |r| ==> IsDigitIn(r[i], base)
    ensures |r| < |s| ==> !IsDigitIn(s[|r|], base)
  {
    if |s| > 0 && IsDigitIn(s[0], base) then [s[0]] + DigitPrefix(s[1..], base) else []
  }

  /** The value of a digit string, most significant digit first. */
  function DigitsValue(ds: string, base: nat): nat {
    if |ds| == 0 then 0 else DigitsValue(ds[..|ds| - 1], base) * base + DigitValue(ds[|ds| - 1])
  }

  /** The digits after the sign: hexadecimal after "0x" or "0X", decimal
      otherwise. */
  function ParseUnsigned(u: string): Option<nat> {
    var hex := |u| >= 2 && u[0] == '0' && (u[1] == 'x' || u[1] == 'X');
    var base := if hex then 16 else 10;
    var digits := DigitPrefix(if hex then u[2..] else u, base);
    if |digits| == 0 then None else Some(DigitsValue(digits, base))
  }

  /** `parseInt(s)` with no radix. */
  function Parse(s: string): (r: Option<int>) {
    ParseTrimmed(TrimStart(s))
  }

  /** What `parseInt` reads once the leading white space is gone: an optional
      sign, then the digits. */
  function ParseTrimmed(t: string): Option<int> {
    if |t| > 0 && t[0] == '-' then
      match ParseUnsigned(t[1..])
      case None => None
      case Some(magnitude) => Some(0 - magnitude)
    else if |t| > 0 && t[0] == '+' then
      match ParseUnsigned(t[1..])
      case None => None
      case Some(magnitude) => Some(magnitude as int)
    else
      match ParseUnsigned(t)
      case None => None
      case Some(magnitude) => Some(magnitude as int)
  }

  function DigitChar(d: nat): (c: char)
    requires d < 10
    ensures IsDecimalDigit(c) && DigitValue(c) == d
  {
    ('0' as int + d) as char
  }

  /** `String(n)` for a natural number. */
  function NatToDecimal(n: nat): (r: string)
    ensures |r| > 0
    ensures forall i :: 0 <= i < |r| ==> IsDecimalDigit(r[i])
  {
    if n < 10 then [DigitChar(n)] else NatToDecimal(n / 10) + [DigitChar(n % 10)]
  }

  lemma {:induction false} DecimalValue(n: nat)
    ensures DigitsValue(NatToDecimal(n), 10) == n
  {
    if n >= 10 {
      var r := NatToDecimal(n);
      assert r[..|r| - 1] == NatToDecimal(n / 10);
      DecimalValue(n / 10);
    }
  }

  lemma {:induction false} DigitPrefixOf(ds: string, tail: string, base: nat)
    requires forall i :: 0 <= i < |ds| ==> IsDigitIn(ds[i], base)
    requires |tail| == 0 || !IsDigitIn(tail[0], base)
    ensures DigitPrefix(ds + tail, base) == ds
  {
    if |ds| > 0 {
      assert (ds + tail)[1..] == ds[1..] + tail;
      DigitPrefixOf(ds[1..], tail, base);
    } else {
      assert ds + tail == tail;
    }
  }

  lemma ParseUnsignedDecimal(n: nat, tail: string)
    requires |tail| == 0 || !(IsDecimalDigit(tail[0]) || tail[0] == 'x' || tail[0] == 'X')
    ensures ParseUnsigned(NatToDecimal(n) + tail) == Some(n)
  {
    var ds := NatToDecimal(n);
    var u := ds + tail;
    DecimalValue(n);
    DigitPrefixOf(ds, tail, 10);
    var hex := |u| >= 2 && u[0] == '0' && (u[1] == 'x' || u[1] == 'X');
    if |u| >= 2 {
      if |ds| >= 2 {
        assert u[1] == ds[1] && IsDecimalDigit(ds[1]);
      } else {
        assert u[1] == tail[0];
      }
    }
    assert !hex;
    assert DigitPrefix(u, 10) == ds;
  }

  lemma TrimStartStops(s: string)
    requires |s| > 0 && !IsSpace(s[0])
    ensures TrimStart(s) == s
  {
  }

  /** `parseInt` reads back the decimal form of a number, whatever non-digit
      text follows it. */
  lemma ParseDecimal(n: nat, tail: string)
    requires |tail| == 0 || !(IsDecimalDigit(tail[0]) || tail[0] == 'x' || tail[0] == 'X')
    ensures Parse(NatToDecimal(n) + tail) == Some(n)
  {
    var ds := NatToDecimal(n);
    var u := ds + tail;
    ParseUnsignedDecimal(n, tail);
    assert u[0] == ds[0] && IsDecimalDigit(ds[0]);
    ParseUnsignedText(u);
  }

  /** Text that starts with a digit has no white space or sign to skip, so
      `parseInt` reads it as `ParseUnsigned` does. */
  lemma ParseUnsignedText(u: string)
    requires |u| > 0 && IsDecimalDigit(u[0])
    ensures ParseUnsigned(u).None? ==> Parse(u) == None
    ensures ParseUnsigned(u).Some? ==> Parse(u) == Some(ParseUnsigned(u).value as int)
  {
    TrimStartStops(u);
    assert u[0] != '-' && u[0] != '+';
  }

  /** `parseInt` gives a number only when a digit follows the white space and
      the optional sign: blank text and text opening with any other character
      are NaN. */
  lemma ParseNeedsDigit(s: string)
    ensures Parse(s).Some? ==> |TrimStart(s)| > 0
    ensures var t := TrimStart(s);
            |t| > 0 && t[0] != '-' && t[0] != '+' && !IsDecimalDigit(t[0]) ==> Parse(s).None?
  {
  }

  /** Leading white space does not change what `parseInt` reads. */
  lemma ParseSkipsSpace(c: char, s: string)
    requires IsSpace(c)
    ensures Parse([c] + s) == Parse(s)
  {
    assert ([c] + s)[1..] == s;
    assert TrimStart([c] + s) == TrimStart(s);
  }

  /** The same behind a minus sign. */
  lemma ParseNegativeDecimal(n: nat, tail: string)
    requires |tail| == 0 || !(IsDecimalDigit(tail[0]) || tail[0] == 'x' || tail[0] == 'X')
    ensures Parse("-" + NatToDecimal(n) + tail) == Some(-(n as int))
  {
    var u := NatToDecimal(n) + tail;
    var minus := "-" + NatToDecimal(n) + tail;
    assert minus == "-" + u && minus[0] == '-';
    assert minus[1..] == u;
    TrimStartStops(minus);
    NegativeText(u, n, tail);
  }

  lemma NegativeText(u: string, n: nat, tail: string)
    requires |tail| == 0 || !(IsDecimalDigit(tail[0]) || tail[0] == 'x' || tail[0] == 'X')
    requires u == NatToDecimal(n) + tail
    ensures ParseTrimmed("-" + u) == Some(-(n as int))
  {
    ParseUnsignedDecimal(n, tail);
    assert ("-" + u)[1..] == u;
  }
}

/** The incident list: the cards of the incidents, ordered by priority and
    then newest first, and what each card shows. The `opened_at` timestamp
    is abstract: `timeOf` stands for `new Date(...)` as a number. */
module IncidentList {
  import opened Common
  import opened Records
  import opened Sorting
  import P = ParseInt
  import Codes
  import IncidentService
  import IncidentMap

  /** The unwrapped priority as `parseInt` reads it, 0 for NaN. */
  function Rank(x: Incident): int {
    match P.Parse(JsString(ValueOf(x.priority)))
    case None => 0
    case Some(p) => p
  }

  function OpenedTime(x: Incident, timeOf: Option<string> -> int): int {
    timeOf(DisplayOf(x.openedAt))
  }

  /** The comparator of `sortedIncidents`. A NaN difference counts as 0. */
  function Compare(a: Incident, b: Incident, timeOf: Option<string> -> int): int {
    var aPriority := ValueOf(a.priority);
    var bPriority := ValueOf(b.priority);
    if aPriority != bPriority then
      match (P.Parse(JsString(aPriority)), P.Parse(JsString(bPriority)))
      case (Some(x), Some(y)) => x - y
      case _ => 0
    else OpenedTime(b, timeOf) - OpenedTime(a, timeOf)
  }

  /** Swapping the two incidents negates the comparison, whatever their
      priorities: a NaN difference is 0 both ways round. */
  lemma CompareAntisymmetric(a: Incident, b: Incident, timeOf: Option<string> -> int)
    ensures Compare(a, b, timeOf) == 0 - Compare(b, a, timeOf)
  {
  }

  /** `[...incidents].sort(compare)`: a sorted copy. */
  function SortedIncidents(incidents: seq<Incident>, timeOf: Option<string> -> int): (r: seq<Incident>)
    ensures multiset(r) == multiset(incidents)
    ensures |r| == |incidents|
  {
    InsertionSort(incidents, (a: Incident, b: Incident) => Compare(a, b, timeOf) < 0)
  }

  /** Every priority parses, and two priorities parse alike only when they are
      the same value; without this the comparator is not an order. */
  ghost predicate WellFormedPriorities(u: seq<Incident>) {
    && (forall x :: x in u ==> P.Parse(JsString(ValueOf(x.priority))).Some?)
    && (forall x, y :: x in u && y in u && Rank(x) == Rank(y) ==> ValueOf(x.priority) == ValueOf(y.priority))
  }

  /** On well-formed priorities, `a` sorts first exactly when its priority is
      lower, or equal and it was opened later. */
  lemma BeforeMeans(u: seq<Incident>, a: Incident, b: Incident, timeOf: Option<string> -> int)
    requires WellFormedPriorities(u) && a in u && b in u
    ensures Compare(a, b, timeOf) < 0 <==>
              Rank(a) < Rank(b) || (Rank(a) == Rank(b) && OpenedTime(a, timeOf) > OpenedTime(b, timeOf))
  {
  }

  lemma ComparatorIsStrictOrder(u: seq<Incident>, timeOf: Option<string> -> int)
    requires WellFormedPriorities(u)
    ensures StrictOrderOn(u, (a: Incident, b: Incident) => Compare(a, b, timeOf) < 0)
  {
    var before := (a: Incident, b: Incident) => Compare(a, b, timeOf) < 0;
    forall a, b | a in u && b in u && before(a, b) ensures !before(b, a) {
      BeforeMeans(u, a, b, timeOf);
      BeforeMeans(u, b, a, timeOf);
    }
    forall a, b, c | a in u && b in u && c in u && before(a, b) && before(b, c) ensures before(a, c) {
      BeforeMeans(u, a, b, timeOf);
      BeforeMeans(u, b, c, timeOf);
      BeforeMeans(u, a, c, timeOf);
    }
  }

  /** Lower priority numbers come first, and among equal priorities the
      newer incident comes first. */
  lemma SortedByPriorityThenNewest(incidents: seq<Incident>, timeOf: Option<string> -> int)
    requires WellFormedPriorities(incidents)
    ensures var r := SortedIncidents(incidents, timeOf);
            forall i, j :: 0 <= i < j < |r| ==>
              Rank(r[i]) <= Rank(r[j]) && (Rank(r[i]) == Rank(r[j]) ==> OpenedTime(r[i], timeOf) >= OpenedTime(r[j], timeOf))
  {
    var before := (a: Incident, b: Incident) => Compare(a, b, timeOf) < 0;
    ComparatorIsStrictOrder(incidents, timeOf);
    InsertionSortSorted(incidents, before, incidents);
    var r := SortedIncidents(incidents, timeOf);
    forall i, j | 0 <= i < j < |r|
      ensures Rank(r[i]) <= Rank(r[j]) && (Rank(r[i]) == Rank(r[j]) ==> OpenedTime(r[i], timeOf) >= OpenedTime(r[j], timeOf))
    {
      assert r[i] in multiset(r) && r[j] in multiset(r);
      assert !before(r[j], r[i]);
      BeforeMeans(incidents, r[j], r[i], timeOf);
    }
  }

  /** The priority codes are the decimal forms of 1 to 5. */
  lemma PriorityCodesAreDecimals(i: nat)
    requires i < |Codes.PriorityCodes|
    ensures Codes.PriorityCodes[i] == P.NatToDecimal(i + 1)
  {
  }

  /** A known priority code parses to its position in the table, counted from 1. */
  lemma KnownCodeRank(c: string)
    requires c in Codes.PriorityCodes
    ensures P.Parse(c).Some? && 1 <= P.Parse(c).value <= 5
    ensures Codes.PriorityCodes[P.Parse(c).value - 1] == c
  {
    var i :| 0 <= i < |Codes.PriorityCodes| && Codes.PriorityCodes[i] == c;
    PriorityCodesAreDecimals(i);
    var d := P.NatToDecimal(i + 1);
    P.ParseDecimal(i + 1, "");
    assert d + "" == d && d == c;
    assert P.Parse(c) == Some(i + 1);
  }

  /** Incidents whose priorities are all platform codes have well-formed
      priorities, so the sortedness result applies to them. */
  lemma KnownCodesWellFormed(incidents: seq<Incident>)
    requires forall x :: x in incidents ==> ValueOf(x.priority).Some? && ValueOf(x.priority).value in Codes.PriorityCodes
    ensures WellFormedPriorities(incidents)
  {
    forall x | x in incidents ensures P.Parse(JsString(ValueOf(x.priority))).Some? {
      KnownIncidentRank(x);
    }
    forall x, y | x in incidents && y in incidents && Rank(x) == Rank(y)
      ensures ValueOf(x.priority) == ValueOf(y.priority)
    {
      SameRankSamePriority(x, y);
    }
  }

  lemma SameRankSamePriority(x: Incident, y: Incident)
    requires ValueOf(x.priority).Some? && ValueOf(x.priority).value in Codes.PriorityCodes
    requires ValueOf(y.priority).Some? && ValueOf(y.priority).value in Codes.PriorityCodes
    requires Rank(x) == Rank(y)
    ensures ValueOf(x.priority) == ValueOf(y.priority)
  {
    var cx, cy := ValueOf(x.priority).value, ValueOf(y.priority).value;
    RankOfCode(x, cx);
    RankOfCode(y, cy);
    SameParseSameCode(cx, cy);
  }

  lemma RankOfCode(x: Incident, c: string)
    requires ValueOf(x.priority) == Some(c)
    ensures Rank(x) == match P.Parse(c) case None => 0 case Some(p) => p
  {
    assert JsString(ValueOf(x.priority)) == c;
  }

  lemma SameParseSameCode(cx: string, cy: string)
    requires cx in Codes.PriorityCodes && cy in Codes.PriorityCodes
    requires (match P.Parse(cx) case None => 0 case Some(p) => p) == (match P.Parse(cy) case None => 0 case Some(p) => p)
    ensures cx == cy
  {
    var i := CodeIndex(cx);
    var j := CodeIndex(cy);
    assert i == j;
  }

  lemma CodeIndex(c: string) returns (i: nat)
    requires c in Codes.PriorityCodes
    ensures i < |Codes.PriorityCodes| && Codes.PriorityCodes[i] == c && P.Parse(c) == Some(i + 1)
  {
    KnownCodeRank(c);
    i := P.Parse(c).value - 1;
  }

  /** An incident with a platform priority code has that code's rank. */
  lemma KnownIncidentRank(x: Incident)
    requires ValueOf(x.priority).Some? && ValueOf(x.priority).value in Codes.PriorityCodes
    ensures P.Parse(JsString(ValueOf(x.priority))).Some?
    ensures 1 <= Rank(x) <= 5 && ValueOf(x.priority) == Some(Codes.PriorityCodes[Rank(x) - 1])
  {
    KnownCodeRank(ValueOf(x.priority).value);
  }

  /** `getLocationDisplayName` of the list: the location's display name when
      the incident's location is found, otherwise the reference's display
      value or "No Location". */
  function ListLocationName(incident: Incident, locations: seq<Location>): (r: string)
    ensures r != ""
    ensures LocationFor(locations, ValueOf(incident.location)).Some? ==>
              r == LocationDisplayName(LocationFor(locations, ValueOf(incident.location)).value)
    ensures LocationFor(locations, ValueOf(incident.location)).None? ==>
              r == if Truthy(DisplayOf(incident.location)) then DisplayOf(incident.location).value else "No Location"
  {
    match LocationFor(locations, ValueOf(incident.location))
    case Some(location) => LocationDisplayName(location)
    case None =>
      var fallback := DisplayOf(incident.location);
      if Truthy(fallback) then fallback.value else "No Location"
  }

  /** The list names the same place as the map's popup for an incident that
      has a marker. */
  lemma ListNameMatchesMap<C>(incident: Incident, locations: seq<Location>, parse: string -> Option<C>)
    requires IncidentMap.MarkerFor(incident, locations, parse).Some?
    ensures ListLocationName(incident, locations)
            == LocationDisplayName(IncidentMap.MarkerFor(incident, locations, parse).value.location)
  {
    var id := ValueOf(incident.location);
    var m := IncidentMap.MarkerFor(incident, locations, parse).value;
    var j :| IncidentMap.FirstMatch(locations, id, j) && m.location == locations[j];
    var k := FindLocation(locations, id);
    assert k.Some?;
    assert k.value == j;
  }

  /** `formatDate` of an opened-at display value; `locale` stands for
      `toLocaleDateString`. */
  function FormatDate(date: Option<string>, locale: string -> string): (r: string)
    ensures !Truthy(date) ==> r == "N/A"
    ensures Truthy(date) ==> r == locale(date.value)
  {
    if !Truthy(date) then "N/A" else locale(date.value)
  }

  /** What one card shows. */
  datatype Card = Card(
    number: Option<string>,
    url: string,
    priorityColor: string,
    priorityLabel: string,
    stateLabel: string,
    openedDate: string,
    description: string,
    locationName: string,
    assignment: string,
    caller: Option<string>)

  /** A card links to its incident's record; its badge colour and label name
      the same priority, the incident's own when it is a platform code; its
      description, assignee and location texts are never blank. */
  function CardFor(incident: Incident, locations: seq<Location>, locale: string -> string): (c: Card)
    ensures c.number == DisplayOf(incident.number)
    ensures SysIdFromUrl(c.url) == Some(JsString(ValueOf(incident.sysId)))
    ensures Codes.PriorityCodeOfColor(c.priorityColor) == Codes.PriorityCodeOfLabel(c.priorityLabel)
    ensures ValueOf(incident.priority).Some? && ValueOf(incident.priority).value in Codes.PriorityCodes ==>
              Codes.PriorityCodeOfLabel(c.priorityLabel) == ValueOf(incident.priority).value
    ensures c.stateLabel == IncidentService.GetStateLabel(incident.state)
    ensures c.openedDate == FormatDate(DisplayOf(incident.openedAt), locale)
    ensures c.description != "" && c.assignment != "" && c.locationName != ""
    ensures Truthy(DisplayOf(incident.shortDescription)) ==> c.description == DisplayOf(incident.shortDescription).value
    ensures Truthy(DisplayOf(incident.assignedTo)) ==> c.assignment == DisplayOf(incident.assignedTo).value
    ensures c.locationName == ListLocationName(incident, locations)
    ensures c.caller.Some? <==> Truthy(DisplayOf(incident.callerId))
    ensures c.caller.Some? ==> Some(c.caller.value) == DisplayOf(incident.callerId)
  {
    var shortDesc := DisplayOf(incident.shortDescription);
    var assignedTo := DisplayOf(incident.assignedTo);
    var caller := DisplayOf(incident.callerId);
    Codes.PriorityLabelMatchesColor(JsString(ValueOf(incident.priority)));
    Card(
      DisplayOf(incident.number),
      IncidentUrl(incident),
      Codes.PriorityColorOf(incident.priority),
      IncidentService.GetPriorityLabel(incident.priority),
      IncidentService.GetStateLabel(incident.state),
      FormatDate(DisplayOf(incident.openedAt), locale),
      if Truthy(shortDesc) then shortDesc.value else "No description available",
      ListLocationName(incident, locations),
      if Truthy(assignedTo) then assignedTo.value else "Unassigned",
      if Truthy(caller) then Some(caller.value) else None)
  }

  /** An incident's line in a map popup and its card in the list show the
      same number, link to the same record, and show the same priority colour,
      priority label and state label; their descriptions agree when the
      incident has one. */
  lemma PopupMatchesCard<C>(m: IncidentMap.Marker<C>, locations: seq<Location>, locale: string -> string)
    ensures var item := IncidentMap.Item(m);
            var card := CardFor(m.incident, locations, locale);
            && item.number == card.number && item.url == card.url
            && item.color == card.priorityColor && item.priorityTitle == card.priorityLabel
            && item.stateLabel == card.stateLabel
            && (Truthy(DisplayOf(m.incident.shortDescription)) ==> item.description == card.description)
  {
  }

  /** The rendered list: the empty state, or the count and one card per
      incident in sorted order. */
  datatype ListView = EmptyList | Cards(count: nat, cards: seq<Card>)

  /** The list is empty exactly when there are no incidents; otherwise it
      holds as many cards as incidents, every incident has its card, and
      every card is that of an incident, in sorted order. */
  function View(incidents: seq<Incident>, locations: seq<Location>, timeOf: Option<string> -> int,
                locale: string -> string): (v: ListView)
    ensures v.EmptyList? <==> |incidents| == 0
    ensures v.Cards? ==> v.count == |v.cards| == |incidents|
    ensures v.Cards? ==> forall x :: x in incidents ==> CardFor(x, locations, locale) in v.cards
    ensures v.Cards? ==> forall i :: 0 <= i < |v.cards| ==>
              v.cards[i] == CardFor(SortedIncidents(incidents, timeOf)[i], locations, locale)
              && SortedIncidents(incidents, timeOf)[i] in incidents
  {
    if |incidents| == 0 then EmptyList
    else
      var sorted := SortedIncidents(incidents, timeOf);
      var cards := seq(|sorted|, i requires 0 <= i < |sorted| => CardFor(sorted[i], locations, locale));
      CardsCoverIncidents(incidents, sorted, cards, locations, locale);
      Cards(|incidents|, cards)
  }

  lemma CardsCoverIncidents(incidents: seq<Incident>, sorted: seq<Incident>, cards: seq<Card>,
                            locations: seq<Location>, locale: string -> string)
    requires multiset(sorted) == multiset(incidents)
    requires |cards| == |sorted| && forall i :: 0 <= i < |sorted| ==> cards[i] == CardFor(sorted[i], locations, locale)
    ensures forall x :: x in incidents ==> CardFor(x, locations, locale) in cards
    ensures forall i :: 0 <= i < |sorted| ==> sorted[i] in incidents
  {
    forall x | x in incidents ensures CardFor(x, locations, locale) in cards {
      assert x in multiset(sorted);
      var i :| 0 <= i < |sorted| && sorted[i] == x;
      assert cards[i] == CardFor(x, locations, locale);
    }
    forall i | 0 <= i < |sorted| ensures sorted[i] in incidents {
      assert sorted[i] in multiset(incidents);
    }
  }

  /** The order of a priority label, 1 for 'Critical' to 5 for 'Planning'. */
  function LabelRank(title: string): nat {
    match title
    case "Critical" => 1
    case "High" => 2
    case "Moderate" => 3
    case "Low" => 4
    case "Planning" => 5
    case _ => 0
  }

  /** The label a platform priority code shows has that code's rank. */
  lemma LabelRankIsRank(x: Incident)
    requires ValueOf(x.priority).Some? && ValueOf(x.priority).value in Codes.PriorityCodes
    ensures LabelRank(IncidentService.GetPriorityLabel(x.priority)) == Rank(x)
  {
    KnownIncidentRank(x);
    LabelRankOfCode(Rank(x) - 1);
    assert IncidentService.GetPriorityLabel(x.priority) == Codes.PriorityLabel(ValueOf(x.priority).value);
  }

  lemma LabelRankOfCode(i: nat)
    requires i < |Codes.PriorityCodes|
    ensures LabelRank(Codes.PriorityLabel(Codes.PriorityCodes[i])) == i + 1
  {
  }

  /** When every priority is a platform code, the cards run from 'Critical'
      down to 'Planning'. */
  lemma ViewListsByPriority(incidents: seq<Incident>, locations: seq<Location>, timeOf: Option<string> -> int,
                            locale: string -> string)
    requires forall x :: x in incidents ==> ValueOf(x.priority).Some? && ValueOf(x.priority).value in Codes.PriorityCodes
    ensures var v := View(incidents, locations, timeOf, locale);
            v.Cards? ==> forall i, j :: 0 <= i < j < |v.cards| ==>
              LabelRank(v.cards[i].priorityLabel) <= LabelRank(v.cards[j].priorityLabel)
  {
    var v := View(incidents, locations, timeOf, locale);
    if v.Cards? {
      var r := SortedIncidents(incidents, timeOf);
      KnownCodesWellFormed(incidents);
      SortedByPriorityThenNewest(incidents, timeOf);
      forall i | 0 <= i < |v.cards| ensures LabelRank(v.cards[i].priorityLabel) == Rank(r[i]) {
        LabelRankIsRank(r[i]);
      }
    }
  }
}
