/** The stand-alone filter panel (components/search-filters.tsx): domain and year
    start at "all", the domain and tag lists are fetched once, and the reading time
    is a single select. */
module SearchPanel {
  import opened JsBuiltins
  import opened Reviews
  import opened FilterPanel

  /** The selection on first render, which "Clear All" restores. */
  const Initial := Selection("", "all", "all", [], "")

  /** `hasActiveFilters`: something is typed or chosen that is not the default. */
  predicate Active(s: Selection) {
    s.query != "" || s.domain != "all" || s.year != "all" || |s.tags| > 0 || s.readingTime != ""
  }

  /** The panel counts as active exactly when its selection differs from the
      initial one, and the initial selection emits no filter. */
  lemma ActiveIffChanged(s: Selection)
    ensures Active(s) <==> s != Initial
    ensures Emitted(Initial) == NoFilters
  {
  }

  class SearchFilters {
    var query: string
    var selectedDomain: string
    var selectedYear: string
    var selectedTags: seq<string>
    var selectedReadingTime: string
    var domains: seq<string>
    var tags: seq<string>

    function Selected(): Selection
      reads this
    {
      Selection(query, selectedDomain, selectedYear, selectedTags, selectedReadingTime)
    }

    /** The filters handed to onFiltersChange (when the parent passed one). */
    function Filters(): Reviews.Filters
      reads this
    {
      Emitted(Selected())
    }

    function HasActiveFilters(): bool
      reads this
    {
      Active(Selected())
    }

    function PopularTags(): seq<string>
      reads this
    {
      FilterPanel.PopularTags(tags)
    }

    constructor ()
      ensures Selected() == Initial && domains == [] && tags == []
      ensures Filters() == NoFilters && !HasActiveFilters()
    {
      query := "";
      selectedDomain := "all";
      selectedYear := "all";
      selectedTags := [];
      selectedReadingTime := "";
      domains := [];
      tags := [];
    }

    /** fetchDomains: the list is replaced only by a successful response; a failed
        request or a network error leaves it as it was. */
    method DomainsFetched(ok: bool, data: seq<string>)
      modifies this
      ensures domains == (if ok then data else old(domains))
      ensures tags == old(tags) && Selected() == old(Selected())
    {
      if ok {
        domains := data;
      }
    }

    /** fetchTags, in the same way. */
    method TagsFetched(ok: bool, data: seq<string>)
      modifies this
      ensures tags == (if ok then data else old(tags))
      ensures domains == old(domains) && Selected() == old(Selected())
    {
      if ok {
        tags := data;
      }
    }

    method SetQuery(q: string)
      modifies this
      ensures Selected() == old(Selected()).(query := q)
      ensures domains == old(domains) && tags == old(tags)
    {
      query := q;
    }

    method SetDomain(domain: string)
      modifies this
      ensures Selected() == old(Selected()).(domain := domain)
      ensures domains == old(domains) && tags == old(tags)
    {
      selectedDomain := domain;
    }

    method SetYear(year: string)
      modifies this
      ensures Selected() == old(Selected()).(year := year)
      ensures domains == old(domains) && tags == old(tags)
    {
      selectedYear := year;
    }

    method SetReadingTime(readingTime: string)
      modifies this
      ensures Selected() == old(Selected()).(readingTime := readingTime)
      ensures domains == old(domains) && tags == old(tags)
    {
      selectedReadingTime := readingTime;
    }

    method HandleTagToggle(tag: string)
      modifies this
      ensures Selected() == old(Selected()).(tags := ToggleTag(old(selectedTags), tag))
      ensures domains == old(domains) && tags == old(tags)
    {
      selectedTags := ToggleTag(selectedTags, tag);
    }

    /** "Clear All" restores the initial selection. */
    method HandleClearFilters()
      modifies this
      ensures Selected() == Initial && !HasActiveFilters() && Filters() == NoFilters
      ensures domains == old(domains) && tags == old(tags)
    {
      query := "";
      selectedDomain := "all";
      selectedYear := "all";
      selectedTags := [];
      selectedReadingTime := "";
    }
  }
}
