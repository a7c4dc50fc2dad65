/** The fixed lookup tables for priority and state codes. The service, the
    filter bar, the map and the list each carry a copy of some of them; each
    table is defined once here. A lookup of a code the table lacks yields the
    fallback ('Unknown' for labels, '#666' for colours). */
module Codes {
  import opened Records

  const PriorityCodes: seq<string> := ["1", "2", "3", "4", "5"]
  const StateCodes: seq<string> := ["1", "2", "3"]

  /** `labels[String(priority)] || 'Unknown'`. */
  function PriorityLabel(code: string): (r: string)
    ensures r == "Unknown" <==> code !in PriorityCodes
    ensures code == "1" ==> r == "Critical"
    ensures code == "5" ==> r == "Planning"
  {
    match code
    case "1" => "Critical"
    case "2" => "High"
    case "3" => "Moderate"
    case "4" => "Low"
    case "5" => "Planning"
    case _ => "Unknown"
  }

  /** `labels[String(state)] || 'Unknown'`. */
  function StateLabel(code: string): (r: string)
    ensures r == "Unknown" <==> code !in StateCodes
    ensures code == "1" ==> r == "New"
  {
    match code
    case "1" => "New"
    case "2" => "In Progress"
    case "3" => "On Hold"
    case _ => "Unknown"
  }

  /** `colors[String(priority)] || '#666'`. */
  function PriorityColor(code: string): (r: string)
    ensures r == "#666" <==> code !in PriorityCodes
  {
    match code
    case "1" => "#d32f2f"
    case "2" => "#f57c00"
    case "3" => "#fbc02d"
    case "4" => "#388e3c"
    case "5" => "#1976d2"
    case _ => "#666"
  }

  /** `colors[String(state)] || '#666'`. */
  function StateColor(code: string): (r: string)
    ensures r == "#666" <==> code !in StateCodes
  {
    match code
    case "1" => "#1976d2"
    case "2" => "#f57c00"
    case "3" => "#9c27b0"
    case _ => "#666"
  }

  /** Distinct known codes get distinct labels and distinct colours. */
  lemma TablesInjective(a: string, b: string)
    ensures a in PriorityCodes && b in PriorityCodes && a != b ==>
              PriorityLabel(a) != PriorityLabel(b) && PriorityColor(a) != PriorityColor(b)
    ensures a in StateCodes && b in StateCodes && a != b ==>
              StateLabel(a) != StateLabel(b) && StateColor(a) != StateColor(b)
  {
    if a in PriorityCodes && b in PriorityCodes && a != b {
      PriorityTablesInjective(a, b);
    }
    if a in StateCodes && b in StateCodes && a != b {
      StateTablesInjective(a, b);
    }
  }

  lemma PriorityTablesInjective(a: string, b: string)
    requires a in PriorityCodes && b in PriorityCodes && a != b
    ensures PriorityLabel(a) != PriorityLabel(b) && PriorityColor(a) != PriorityColor(b)
  {
    PriorityTablesInvertible(a);
    PriorityTablesInvertible(b);
  }

  /** The code a priority label or colour stands for, the inverse of the tables. */
  function PriorityCodeOfLabel(title: string): string {
    match title
    case "Critical" => "1"
    case "High" => "2"
    case "Moderate" => "3"
    case "Low" => "4"
    case "Planning" => "5"
    case _ => ""
  }

  function PriorityCodeOfColor(color: string): string {
    match color
    case "#d32f2f" => "1"
    case "#f57c00" => "2"
    case "#fbc02d" => "3"
    case "#388e3c" => "4"
    case "#1976d2" => "5"
    case _ => ""
  }

  /** A known code is recovered from its label and from its colour. */
  lemma PriorityTablesInvertible(code: string)
    requires code in PriorityCodes
    ensures PriorityCodeOfLabel(PriorityLabel(code)) == code
    ensures PriorityCodeOfColor(PriorityColor(code)) == code
  {
  }

  /** A priority's colour and its label name the same code: that code when it
      is known, and none otherwise (grey and 'Unknown'). */
  lemma PriorityLabelMatchesColor(code: string)
    ensures PriorityCodeOfColor(PriorityColor(code)) == PriorityCodeOfLabel(PriorityLabel(code))
  {
    if code in PriorityCodes {
      PriorityTablesInvertible(code);
    }
  }

  lemma StateTablesInjective(a: string, b: string)
    requires a in StateCodes && b in StateCodes && a != b
    ensures StateLabel(a) != StateLabel(b) && StateColor(a) != StateColor(b)
  {
    StateTablesInvertible(a);
    StateTablesInvertible(b);
  }

  /** The code a state label or colour stands for, the inverse of the tables. */
  function StateCodeOfLabel(title: string): string {
    match title
    case "New" => "1"
    case "In Progress" => "2"
    case "On Hold" => "3"
    case _ => ""
  }

  function StateCodeOfColor(color: string): string {
    match color
    case "#1976d2" => "1"
    case "#f57c00" => "2"
    case "#9c27b0" => "3"
    case _ => ""
  }

  /** A known state code is recovered from its label and from its colour. */
  lemma StateTablesInvertible(code: string)
    requires code in StateCodes
    ensures StateCodeOfLabel(StateLabel(code)) == code
    ensures StateCodeOfColor(StateColor(code)) == code
  {
  }

  /** `getPriorityColor` of the map and the list, which first unwraps `.value`:
      the colour of a known code names that code, and anything else (a
      missing field included) is grey. */
  function PriorityColorOf(priority: Field): (r: string)
    ensures ValueOf(priority).Some? && ValueOf(priority).value in PriorityCodes ==>
              PriorityCodeOfColor(r) == ValueOf(priority).value
    ensures r == "#666" <==> !(ValueOf(priority).Some? && ValueOf(priority).value in PriorityCodes)
  {
    var code := JsString(ValueOf(priority));
    if code in PriorityCodes then PriorityTablesInvertible(code); PriorityColor(code)
    else PriorityColor(code)
  }

  /** An unwrapped field and the raw scalar of the same value get the same
      colour. */
  lemma PriorityColorOfIgnoresWrapping(value: string, display: string)
    ensures PriorityColorOf(Wrapped(value, display)) == PriorityColorOf(Raw(value)) == PriorityColor(value)
  {
  }
}
