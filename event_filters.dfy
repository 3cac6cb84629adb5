/**
 * The filter bar of the events page: each control's change handler builds a
 * patch for `handleFilterChange`, the sort select splits its value into
 * field and order, "Clear Filters" resets everything, and the clear button
 * shows only while a narrowing filter is set.
 */
module EventFilters {
  import opened Wrappers
  import opened JsStrings
  import opened EventsPage

  /** The controls whose change handler patches one filter and returns to page 1. */
  datatype Control = CategorySelect | LocationSelect | DateFromInput | DateToInput

  /** The filter each control edits. */
  function ControlKey(c: Control): Param
  {
    match c
    case CategorySelect => Category
    case LocationSelect => Location
    case DateFromInput => DateFrom
    case DateToInput => DateTo
  }

  /** The patch a control's change handler sends for the control's new `value`. */
  function PatchFor(c: Control, value: string): FilterPatch
  {
    match c
    case CategorySelect => EmptyPatch.(category := Some(value), page := Some(1))
    case LocationSelect => EmptyPatch.(location := Some(value), page := Some(1))
    case DateFromInput => EmptyPatch.(dateFrom := Some(value), page := Some(1))
    case DateToInput => EmptyPatch.(dateTo := Some(value), page := Some(1))
  }

  /** A control change sets its own filter, returns to page 1 and leaves every other filter alone. */
  lemma ControlChangeResetsPage(f: Filters, c: Control, value: string, key: Param)
    ensures FilterValue(Merge(f, PatchFor(c, value)), key)
            == if key == Page then Some(Number(1))
               else if key == ControlKey(c) then Some(Text(value))
               else FilterValue(f, key)
  {
  }

  /** The sort select's options, as `field-order` values. */
  const SortOptions: seq<string> :=
    ["date-asc", "date-desc", "name-asc", "name-desc", "capacity-desc", "capacity-asc"]

  /** The sort select's value for the current filters. */
  function SortValue(f: Filters): string
  {
    (if f.sortBy != "" then f.sortBy else "date") + "-" + (if f.sortOrder != "" then f.sortOrder else "asc")
  }

  /**
   * `handleSortChange`: the value split at `-` gives the field and the order,
   * and the page returns to 1. Every option of the select holds a `-`.
   */
  function SortPatch(value: string): (p: FilterPatch)
    requires '-' in value
    ensures p.page == Some(1)
    ensures p.sortBy.Some? && p.sortOrder.Some?
    ensures '-' !in p.sortBy.value && '-' !in p.sortOrder.value
    ensures p.search.None? && p.category.None? && p.location.None? && p.dateFrom.None? && p.dateTo.None?
  {
    var pieces := Split(value, '-');
    SplitAtSeparator(value, '-');
    EmptyPatch.(sortBy := Some(pieces[0]), sortOrder := Some(pieces[1]), page := Some(1))
  }

  /** Choosing `field-order` sorts by that field in that order. */
  lemma SortPatchSplits(field: string, order: string)
    requires '-' !in field && '-' !in order
    ensures '-' in field + "-" + order
    ensures SortPatch(field + "-" + order).sortBy == Some(field)
    ensures SortPatch(field + "-" + order).sortOrder == Some(order)
  {
    assert (field + "-" + order)[|field|] == '-';
    assert field + "-" + order == field + ['-'] + order;
    SplitAfterPiece(field, order, '-');
    SplitPieceFree(order, '-');
  }

  /** Each option of the select sorts by date, name or capacity, ascending or descending. */
  lemma SortOptionsAreFieldOrder(i: int)
    requires 0 <= i < |SortOptions|
    ensures '-' in SortOptions[i]
    ensures SortPatch(SortOptions[i]).sortBy.value in {"date", "name", "capacity"}
    ensures SortPatch(SortOptions[i]).sortOrder.value in {"asc", "desc"}
  {
    var field := if i < 2 then "date" else if i < 4 then "name" else "capacity";
    var order := if i == 0 || i == 2 || i == 5 then "asc" else "desc";
    assert SortOptions[i] == field + "-" + order;
    SortPatchSplits(field, order);
  }

  /** Re-selecting the shown sort option changes neither the field nor the order. */
  lemma SortValueRoundTrip(f: Filters)
    requires f.sortBy != "" && f.sortOrder != ""
    requires '-' !in f.sortBy && '-' !in f.sortOrder
    ensures '-' in SortValue(f)
    ensures Merge(f, SortPatch(SortValue(f))) == f.(page := 1)
  {
    SortPatchSplits(f.sortBy, f.sortOrder);
  }

  /**
   * The debounced search effect: once the typed text settles, it is sent,
   * with page 1, only when it differs from the current search filter.
   */
  function SearchPatch(input: string, f: Filters): (p: Option<FilterPatch>)
    ensures p.None? <==> input == f.search
  {
    if input != f.search then Some(EmptyPatch.(search := Some(input), page := Some(1))) else None
  }

  /** A sent search patch sets the search, returns to page 1 and keeps the other filters. */
  lemma SearchPatchApplies(input: string, f: Filters, key: Param)
    requires input != f.search
    ensures FilterValue(Merge(f, SearchPatch(input, f).value), key)
            == if key == Page then Some(Number(1))
               else if key == Search then Some(Text(input))
               else FilterValue(f, key)
  {
  }

  /** `clearFilters`: every filter back to its default, page 1 included. */
  const ClearPatch := FilterPatch(Some(""), Some("All"), Some(""), Some(""), Some(""), Some("date"), Some("asc"), Some(1))

  /** `hasActiveFilters`: a search, a category other than "All", a location or a date is set. */
  predicate HasActiveFilters(f: Filters)
  {
    f.search != "" || (f.category != "" && f.category != "All") || f.location != "" || f.dateFrom != "" || f.dateTo != ""
  }

  /** Clearing gives the default filters, whatever they were, and the clear button disappears. */
  lemma ClearGivesDefaults(f: Filters)
    ensures Merge(f, ClearPatch) == DefaultFilters
    ensures !HasActiveFilters(Merge(f, ClearPatch))
    ensures UrlParams(Merge(f, ClearPatch)) == EmptyQuery
  {
    UrlEmptyIffDefault(DefaultFilters);
  }

  /** The filters are active exactly when the URL carries a narrowing parameter; the sort and the page do not count. */
  lemma ActiveIffUrlNarrows(f: Filters)
    ensures HasActiveFilters(f) <==>
            (var q := UrlParams(f); q.search.Some? || q.category.Some? || q.location.Some? || q.dateFrom.Some? || q.dateTo.Some?)
  {
  }

  /** Changing only the sort or the page never shows or hides the clear button. */
  lemma ActiveIgnoresSortAndPage(f: Filters, p: FilterPatch)
    requires p.search.None? && p.category.None? && p.location.None? && p.dateFrom.None? && p.dateTo.None?
    ensures HasActiveFilters(Merge(f, p)) == HasActiveFilters(f)
  {
  }
}
