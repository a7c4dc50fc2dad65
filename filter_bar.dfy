/** The filter bar: the search text, the selected priority and state chips,
    the date range, the chip options and the advanced-panel flag, with the
    handlers that change them and the filter record it reports upward. */
module FilterBar {
  import opened Common
  import opened Records
  import Codes
  import IncidentService

  /** The chip toggle updater: remove the value if selected, else append it. */
  function Toggle(prev: seq<string>, x: string): (r: seq<string>)
    ensures x in r <==> x !in prev
    ensures forall y :: y != x ==> (y in r <==> y in prev)
    ensures x !in prev ==> r == prev + [x]
    ensures x in prev ==> |r| < |prev|
  {
    if x in prev then
      var r := Filter(prev, (p: string) => p != x);
      FilterDropsOne(prev, x);
      r
    else prev + [x]
  }

  /** Removing a present value shortens the list. */
  lemma {:induction false} FilterDropsOne(prev: seq<string>, x: string)
    requires x in prev
    ensures |Filter(prev, (p: string) => p != x)| < |prev|
  {
    if prev[0] != x {
      FilterDropsOne(prev[1..], x);
    }
  }

  /** A filtered duplicate-free list is duplicate-free. */
  lemma {:induction false} FilterNoDuplicates(s: seq<string>, keep: string -> bool)
    requires NoDuplicates(s)
    ensures NoDuplicates(Filter(s, keep))
  {
    if |s| > 0 {
      FilterNoDuplicates(s[1..], keep);
      var rest := Filter(s[1..], keep);
      if keep(s[0]) {
        assert s[0] !in s[1..];
        assert s[0] !in rest;
        var r := Filter(s, keep);
        assert r == [s[0]] + rest;
        forall i, j | 0 <= i < j < |r| ensures r[i] != r[j] {
          if i > 0 {
            assert r[i] == rest[i - 1] && r[j] == rest[j - 1];
          } else {
            assert r[j] == rest[j - 1] && rest[j - 1] in rest;
          }
        }
      }
    }
  }

  /** Starting from a duplicate-free selection, a toggle keeps it duplicate-free. */
  lemma ToggleKeepsNoDuplicates(prev: seq<string>, x: string)
    requires NoDuplicates(prev)
    ensures NoDuplicates(Toggle(prev, x))
  {
    if x in prev {
      FilterNoDuplicates(prev, (p: string) => p != x);
    }
  }

  /** The other selected values stay, in their order. */
  lemma ToggleKeepsOthers(prev: seq<string>, x: string)
    ensures Filter(Toggle(prev, x), (p: string) => p != x) == Filter(prev, (p: string) => p != x)
  {
    var other := (p: string) => p != x;
    if x in prev {
      FilterFilter(prev, other, other, other);
    } else {
      FilterConcat(prev, [x], other);
      assert Filter([x], other) == [];
    }
  }

  /** Toggling the same value twice restores the selection: exactly when the
      value was not selected, and as a set (the value moves to the end)
      when it was. */
  lemma ToggleTwice(prev: seq<string>, x: string)
    ensures x !in prev ==> Toggle(Toggle(prev, x), x) == prev
    ensures forall y :: y in Toggle(Toggle(prev, x), x) <==> y in prev
    ensures x in prev ==> Toggle(Toggle(prev, x), x) == Filter(prev, (p: string) => p != x) + [x]
  {
    var other := (p: string) => p != x;
    if x !in prev {
      assert prev + [x] == prev + [x];
      FilterConcat(prev, [x], other);
      assert Filter([x], other) == [];
      FilterAll(prev, other);
    }
  }

  /** On a duplicate-free selection a toggle adds or removes exactly one
      value, so each chip click moves the active-filter count by one. */
  lemma ToggleLength(prev: seq<string>, x: string)
    requires NoDuplicates(prev)
    ensures |Toggle(prev, x)| == if x in prev then |prev| - 1 else |prev| + 1
  {
    if x in prev {
      FilterDropsExactlyOne(prev, x);
    }
  }

  lemma {:induction false} FilterDropsExactlyOne(prev: seq<string>, x: string)
    requires NoDuplicates(prev) && x in prev
    ensures |Filter(prev, (p: string) => p != x)| == |prev| - 1
  {
    var other := (p: string) => p != x;
    assert forall i, j :: 0 <= i < j < |prev[1..]| ==> prev[1..][i] == prev[i + 1] && prev[1..][j] == prev[j + 1];
    if prev[0] == x {
      assert forall y :: y in prev[1..] ==> other(y);
      FilterAll(prev[1..], other);
    } else {
      FilterDropsExactlyOne(prev[1..], x);
    }
  }

  /** `activeFiltersCount`. */
  function ActiveCount(f: Filters): (n: nat)
    ensures n == 0 <==> f == EmptyFilters
    ensures n >= |f.priority| + |f.state|
    ensures n <= |f.priority| + |f.state| + 3
  {
    |f.priority| + |f.state| + (if f.search != "" then 1 else 0)
    + (if f.dateFrom != "" then 1 else 0) + (if f.dateTo != "" then 1 else 0)
  }

  /** How a chip renders: its title, its colours and whether it is active. */
  datatype Chip = Chip(title: string, chipColor: string, background: string, textColor: string, active: bool)

  /** A chip is filled with its table colour and white text when selected,
      outlined in that colour otherwise; for any colour other than white and
      transparent, whether the chip is selected can be read off its fill and
      off its text colour alike. */
  function ChipFor(title: string, color: string, selected: bool): (c: Chip)
    ensures c.active == selected && c.title == title && c.chipColor == color
    ensures color != "white" && color != "transparent" ==>
              && (c.active <==> c.background == c.chipColor)
              && (c.active <==> c.textColor == "white")
              && (c.background == c.chipColor || c.textColor == c.chipColor)
    ensures !c.active ==> c.background == "transparent"
  {
    Chip(title, color, (if selected then color else "transparent"), (if selected then "white" else color), selected)
  }

  /** No table colour is white or transparent. */
  lemma TableColorsAreVisible(code: string)
    ensures Codes.PriorityColor(code) != "white" && Codes.PriorityColor(code) != "transparent"
    ensures Codes.StateColor(code) != "white" && Codes.StateColor(code) != "transparent"
  {
  }

  /** The filter bar's component state. */
  class FilterBarState {
    var searchText: string
    var selectedPriorities: seq<string>
    var selectedStates: seq<string>
    var dateFrom: string
    var dateTo: string
    var availablePriorities: seq<string>
    var availableStates: seq<string>
    var showAdvanced: bool

    /** Both selections are duplicate-free, which the toggles preserve. */
    ghost predicate Valid()
      reads this
    {
      NoDuplicates(selectedPriorities) && NoDuplicates(selectedStates)
    }

    constructor ()
      ensures searchText == "" && selectedPriorities == [] && selectedStates == []
      ensures dateFrom == "" && dateTo == ""
      ensures availablePriorities == [] && availableStates == [] && !showAdvanced
      ensures Valid()
    {
      searchText := "";
      selectedPriorities := [];
      selectedStates := [];
      dateFrom := "";
      dateTo := "";
      availablePriorities := [];
      availableStates := [];
      showAdvanced := false;
    }

    /** The record reported to the parent whenever one of the five fields changes. */
    function CurrentFilters(): (f: Filters)
      reads this
      ensures f.search == searchText && f.priority == selectedPriorities && f.state == selectedStates
      ensures f.dateFrom == dateFrom && f.dateTo == dateTo
    {
      Filters(searchText, selectedPriorities, selectedStates, dateFrom, dateTo)
    }

    /** `activeFiltersCount`; the Clear All button shows when it is positive. */
    function ActiveFiltersCount(): (n: nat)
      reads this
      ensures n == 0 <==> CurrentFilters() == EmptyFilters
      ensures n == ActiveCount(CurrentFilters())
    {
      ActiveCount(CurrentFilters())
    }

    /** `loadOptions`: the options `getFilterOptions` returned; that call
        catches its own errors, so it always yields two lists. */
    method LoadOptions(options: IncidentService.FilterOptions)
      modifies this
      ensures availablePriorities == options.priorities && availableStates == options.states
      ensures CurrentFilters() == old(CurrentFilters()) && showAdvanced == old(showAdvanced)
    {
      availablePriorities := options.priorities;
      availableStates := options.states;
    }

    method HandlePriorityToggle(priority: string)
      modifies this
      ensures selectedPriorities == Toggle(old(selectedPriorities), priority)
      ensures selectedStates == old(selectedStates) && searchText == old(searchText)
      ensures dateFrom == old(dateFrom) && dateTo == old(dateTo) && showAdvanced == old(showAdvanced)
      ensures availablePriorities == old(availablePriorities) && availableStates == old(availableStates)
      ensures old(Valid()) ==> Valid()
      ensures old(Valid()) ==>
                ActiveFiltersCount() == (if priority in old(selectedPriorities) then old(ActiveFiltersCount()) - 1
                                         else old(ActiveFiltersCount()) + 1)
      ensures PriorityChip(priority).active == !old(PriorityChip(priority).active)
      ensures forall p :: p != priority ==> PriorityChip(p) == old(PriorityChip(p))
    {
      ghost var prev := selectedPriorities;
      if priority in selectedPriorities {
        selectedPriorities := Filter(selectedPriorities, (p: string) => p != priority);
      } else {
        selectedPriorities := selectedPriorities + [priority];
      }
      if NoDuplicates(prev) {
        ToggleKeepsNoDuplicates(prev, priority);
        ToggleLength(prev, priority);
      }
    }

    method HandleStateToggle(state: string)
      modifies this
      ensures selectedStates == Toggle(old(selectedStates), state)
      ensures selectedPriorities == old(selectedPriorities) && searchText == old(searchText)
      ensures dateFrom == old(dateFrom) && dateTo == old(dateTo) && showAdvanced == old(showAdvanced)
      ensures availablePriorities == old(availablePriorities) && availableStates == old(availableStates)
      ensures old(Valid()) ==> Valid()
      ensures old(Valid()) ==>
                ActiveFiltersCount() == (if state in old(selectedStates) then old(ActiveFiltersCount()) - 1
                                         else old(ActiveFiltersCount()) + 1)
      ensures StateChip(state).active == !old(StateChip(state).active)
      ensures forall t :: t != state ==> StateChip(t) == old(StateChip(t))
    {
      ghost var prev := selectedStates;
      if state in selectedStates {
        selectedStates := Filter(selectedStates, (s: string) => s != state);
      } else {
        selectedStates := selectedStates + [state];
      }
      if NoDuplicates(prev) {
        ToggleKeepsNoDuplicates(prev, state);
        ToggleLength(prev, state);
      }
    }

    /** The search box's `onChange`. */
    method SetSearchText(text: string)
      modifies this
      ensures searchText == text
      ensures selectedPriorities == old(selectedPriorities) && selectedStates == old(selectedStates)
      ensures dateFrom == old(dateFrom) && dateTo == old(dateTo) && showAdvanced == old(showAdvanced)
      ensures availablePriorities == old(availablePriorities) && availableStates == old(availableStates)
    {
      searchText := text;
    }

    /** The date inputs' `onChange`. */
    method SetDateFrom(date: string)
      modifies this
      ensures dateFrom == date
      ensures selectedPriorities == old(selectedPriorities) && selectedStates == old(selectedStates)
      ensures searchText == old(searchText) && dateTo == old(dateTo) && showAdvanced == old(showAdvanced)
      ensures availablePriorities == old(availablePriorities) && availableStates == old(availableStates)
    {
      dateFrom := date;
    }

    method SetDateTo(date: string)
      modifies this
      ensures dateTo == date
      ensures selectedPriorities == old(selectedPriorities) && selectedStates == old(selectedStates)
      ensures searchText == old(searchText) && dateFrom == old(dateFrom) && showAdvanced == old(showAdvanced)
      ensures availablePriorities == old(availablePriorities) && availableStates == old(availableStates)
    {
      dateTo := date;
    }

    /** The Advanced button. */
    method ToggleAdvanced()
      modifies this
      ensures showAdvanced == !old(showAdvanced)
      ensures CurrentFilters() == old(CurrentFilters())
      ensures availablePriorities == old(availablePriorities) && availableStates == old(availableStates)
    {
      showAdvanced := !showAdvanced;
    }

    /** `handleClearAll`: empties the five filter fields (the parent's own
        clear-all handler, which it then calls, is `Dashboard.HandleClearAll`). */
    method HandleClearAll()
      modifies this
      ensures CurrentFilters() == EmptyFilters && ActiveFiltersCount() == 0
      ensures Valid()
      ensures availablePriorities == old(availablePriorities) && availableStates == old(availableStates)
      ensures showAdvanced == old(showAdvanced)
    {
      searchText := "";
      selectedPriorities := [];
      selectedStates := [];
      dateFrom := "";
      dateTo := "";
    }

    /** The chip of an offered priority: active exactly when the priority is
        selected, which its fill shows; a platform code's chip shows that
        code's label and colour, and anything else the fallbacks. */
    function PriorityChip(priority: string): (c: Chip)
      reads this
      ensures c.active <==> priority in selectedPriorities
      ensures c.active <==> c.background == c.chipColor
      ensures priority in Codes.PriorityCodes ==>
                Codes.PriorityCodeOfLabel(c.title) == priority && Codes.PriorityCodeOfColor(c.chipColor) == priority
      ensures priority !in Codes.PriorityCodes ==> c.title == "Unknown" && c.chipColor == "#666"
    {
      TableColorsAreVisible(priority);
      if priority in Codes.PriorityCodes then Codes.PriorityTablesInvertible(priority); PriorityChipOf(priority)
      else PriorityChipOf(priority)
    }

    function PriorityChipOf(priority: string): Chip
      reads this
    {
      ChipFor(Codes.PriorityLabel(priority), Codes.PriorityColor(priority), priority in selectedPriorities)
    }

    /** The chip of an offered state, in the same way. */
    function StateChip(state: string): (c: Chip)
      reads this
      ensures c.active <==> state in selectedStates
      ensures c.active <==> c.background == c.chipColor
      ensures state in Codes.StateCodes ==>
                Codes.StateCodeOfLabel(c.title) == state && Codes.StateCodeOfColor(c.chipColor) == state
      ensures state !in Codes.StateCodes ==> c.title == "Unknown" && c.chipColor == "#666"
    {
      TableColorsAreVisible(state);
      if state in Codes.StateCodes then Codes.StateTablesInvertible(state); StateChipOf(state)
      else StateChipOf(state)
    }

    function StateChipOf(state: string): Chip
      reads this
    {
      ChipFor(Codes.StateLabel(state), Codes.StateColor(state), state in selectedStates)
    }
  }
}
