/** The filter sidebar of the home page (client/src/components/sidebar-filters.tsx):
    its selections start empty, "Clear All" sets domain and year to "all", and the
    reading time is a group of three checkboxes. */
module Sidebar {
  import opened JsBuiltins
  import opened Reviews
  import opened FilterPanel

  /** The reading-time options of the checkbox group. */
  const ReadingTimeOptions: seq<string> := ["quick", "medium", "long"]

  /** The selection on first render: every state variable empty. */
  const Initial := Selection("", "", "", [], "")

  /** `hasActiveFilters` as the sidebar computes it: any non-empty selection, "all"
      included. */
  predicate ActiveAsWritten(s: Selection) {
    s.query != "" || s.domain != "" || s.year != "" || |s.tags| > 0 || s.readingTime != ""
  }

  /** After "Clear All" nothing is filtered, yet the condition above still holds,
      so the "Clear All" button stays on screen. */
  lemma ClearAllStaysShown()
    ensures ActiveAsWritten(Cleared)
    ensures Emitted(Cleared) == NoFilters
  {
  }

  /** `hasActiveFilters` with "all" read as no choice, the way the emitted filters
      read it. */
  predicate Active(s: Selection) {
    s.query != "" || !MeansAll(s.domain) || !MeansAll(s.year) || |s.tags| > 0 || s.readingTime != ""
  }

  /** The corrected condition holds exactly when the sidebar emits some filter. */
  lemma ActiveIffFiltering(s: Selection)
    ensures Active(s) <==> Emitted(s) != NoFilters
  {
    EmitsNothingIff(s);
  }

  /** Ticking a reading-time box selects that bucket and so unticks the others;
      unticking leaves none selected. */
  lemma OneReadingTimeChecked(option: string, checked: bool)
    requires option in ReadingTimeOptions
    ensures var rt := if checked then option else "";
            forall o :: o in ReadingTimeOptions ==> (o == rt <==> checked && o == option)
  {
  }

  class SidebarFilters {
    var query: string
    var selectedDomain: string
    var selectedYear: string
    var selectedTags: seq<string>
    var selectedReadingTime: string
    /** The tags fetched from /api/tags; the empty list until they arrive. */
    var tags: seq<string>

    function Selected(): Selection
      reads this
    {
      Selection(query, selectedDomain, selectedYear, selectedTags, selectedReadingTime)
    }

    /** The filters the component hands to onFiltersChange after every change. */
    function Filters(): Reviews.Filters
      reads this
    {
      Emitted(Selected())
    }

    /** Whether the "Clear All" button shows: the test as the sidebar writes it. */
    function HasActiveFilters(): bool
      reads this
    {
      ActiveAsWritten(Selected())
    }

    function PopularTags(): seq<string>
      reads this
    {
      FilterPanel.PopularTags(tags)
    }

    constructor ()
      ensures Selected() == Initial && tags == []
      ensures Filters() == NoFilters && !HasActiveFilters()
    {
      query := "";
      selectedDomain := "";
      selectedYear := "";
      selectedTags := [];
      selectedReadingTime := "";
      tags := [];
    }

    method TagsLoaded(data: seq<string>)
      modifies this
      ensures tags == data && Selected() == old(Selected())
    {
      tags := data;
    }

    /** The search bar reports a new query. */
    method SetQuery(q: string)
      modifies this
      ensures Selected() == old(Selected()).(query := q) && tags == old(tags)
    {
      query := q;
    }

    method SetDomain(domain: string)
      modifies this
      ensures Selected() == old(Selected()).(domain := domain) && tags == old(tags)
    {
      selectedDomain := domain;
    }

    method SetYear(year: string)
      modifies this
      ensures Selected() == old(Selected()).(year := year) && tags == old(tags)
    {
      selectedYear := year;
    }

    method HandleTagToggle(tag: string)
      modifies this
      ensures Selected() == old(Selected()).(tags := ToggleTag(old(selectedTags), tag)) && tags == old(tags)
    {
      selectedTags := ToggleTag(selectedTags, tag);
    }

    /** "Clear All": nothing is emitted any more, yet the selection left behind still
        passes the sidebar's test, so the button stays on screen. */
    method HandleClearFilters()
      modifies this
      ensures Selected() == Cleared && tags == old(tags)
      ensures Filters() == NoFilters && HasActiveFilters()
      ensures !Active(Selected())
    {
      query := "";
      selectedDomain := "all";
      selectedYear := "all";
      selectedTags := [];
      selectedReadingTime := "";
      ClearedEmitsNothing();
      ClearAllStaysShown();
    }

    /** onCheckedChange of the box for `option`. */
    method ReadingTimeToggled(option: string, checked: bool)
      modifies this
      ensures Selected() == old(Selected()).(readingTime := if checked then option else "")
      ensures tags == old(tags)
    {
      selectedReadingTime := if checked then option else "";
    }
  }
}
