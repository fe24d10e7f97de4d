/** What the two filter panels (client/src/components/sidebar-filters.tsx and
    components/search-filters.tsx) compute the same way: the filters object they
    emit from their selections, the tag toggle, and the list of popular tags. */
module FilterPanel {
  import opened JsBuiltins
  import opened Reviews

  /** The panel's five selections, as the state variables hold them. */
  datatype Selection = Selection(query: string, domain: string, year: string, tags: seq<string>,
                                 readingTime: string)

  /** The selection "Clear All" sets in both panels. */
  const Cleared := Selection("", "all", "all", [], "")

  /** How many tags the "Popular Tags" list shows. */
  const MaxPopularTags: nat := 12

  /** A domain or year choice that filters nothing: nothing chosen, or "All". */
  predicate MeansAll(choice: string) {
    choice == "" || choice == "all"
  }

  /** The object handed to onFiltersChange. A domain or year is passed on only when
      it is a real choice, the tags only when at least one is selected, the reading
      time only when one is chosen; whatever is passed on is non-empty, so the home
      page's `if (filters.x)` tests see exactly the emitted fields. */
  function Emitted(s: Selection): (f: Filters)
    ensures f.query == s.query
    ensures f.domain.None? <==> MeansAll(s.domain)
    ensures f.domain.Some? ==> Truthy(f.domain) && f.domain.value == s.domain
    ensures f.year.None? <==> MeansAll(s.year)
    ensures f.year.Some? ==> Truthy(f.year) && f.year.value == s.year
    ensures f.tags.None? <==> s.tags == []
    ensures f.tags.Some? ==> f.tags.value == s.tags && |s.tags| > 0
    ensures f.readingTime.None? <==> s.readingTime == ""
    ensures f.readingTime.Some? ==> Truthy(f.readingTime) && f.readingTime.value == s.readingTime
  {
    Filters(s.query,
            if MeansAll(s.domain) then None else Some(s.domain),
            if MeansAll(s.year) then None else Some(s.year),
            if |s.tags| > 0 then Some(s.tags) else None,
            if s.readingTime != "" then Some(s.readingTime) else None)
  }

  /** The panel emits "no filters" exactly when nothing is typed or chosen. */
  lemma EmitsNothingIff(s: Selection)
    ensures Emitted(s) == NoFilters <==>
              s.query == "" && MeansAll(s.domain) && MeansAll(s.year) && s.tags == [] && s.readingTime == ""
  {
  }

  /** After "Clear All" the panel emits no filter at all. */
  lemma ClearedEmitsNothing()
    ensures Emitted(Cleared) == NoFilters
  {
  }

  /** handleTagToggle's updater: a selected tag is removed (every copy of it, the
      rest keeping their order), another tag is added at the end. */
  function ToggleTag(selected: seq<string>, tag: string): (r: seq<string>)
    ensures tag in selected ==> tag !in r && IsSubsequence(r, selected)
    ensures tag in selected ==> forall t :: t in r <==> t in selected && t != tag
    ensures tag !in selected ==> r == selected + [tag]
  {
    FilterIsSubsequence(selected, (t: string) => t != tag);
    if tag in selected then Filter(selected, (t: string) => t != tag) else selected + [tag]
  }

  /** Clicking a tag that is not selected twice leaves the selection as it was. */
  lemma ToggleTwiceRestores(selected: seq<string>, tag: string)
    requires tag !in selected
    ensures ToggleTag(ToggleTag(selected, tag), tag) == selected
  {
    var other := (t: string) => t != tag;
    FilterAppend(selected, [tag], other);
    FilterAll(selected, other);
    assert Filter([tag], other) == [];
  }

  /** Clicking a selected tag twice moves it to the end of the selection. */
  lemma ToggleTwiceMovesToEnd(selected: seq<string>, tag: string)
    requires tag in selected
    ensures ToggleTag(ToggleTag(selected, tag), tag) == Filter(selected, (t: string) => t != tag) + [tag]
  {
  }

  /** A selection without repeated tags keeps that property under every toggle. */
  lemma ToggleKeepsTagsDistinct(selected: seq<string>, tag: string)
    requires forall i, j :: 0 <= i < j < |selected| ==> selected[i] != selected[j]
    ensures var r := ToggleTag(selected, tag);
            forall i, j :: 0 <= i < j < |r| ==> r[i] != r[j]
  {
    if tag in selected {
      SubsequenceDistinct(ToggleTag(selected, tag), selected);
    }
  }

  /** A subsequence of a sequence without repeats has none either. */
  lemma {:induction false} SubsequenceDistinct(a: seq<string>, b: seq<string>)
    requires IsSubsequence(a, b)
    requires forall i, j :: 0 <= i < j < |b| ==> b[i] != b[j]
    ensures forall i, j :: 0 <= i < j < |a| ==> a[i] != a[j]
  {
    if b != [] {
      if a != [] && a[0] == b[0] && IsSubsequence(a[1..], b[1..]) {
        SubsequenceDistinct(a[1..], b[1..]);
        SubsequenceMembers(a[1..], b[1..]);
        assert b[0] !in b[1..];
        forall i, j | 0 <= i < j < |a| ensures a[i] != a[j] {
          if i == 0 {
            assert a[j] == a[1..][j - 1];
          } else {
            assert a[i] == a[1..][i - 1] && a[j] == a[1..][j - 1];
          }
        }
      } else {
        SubsequenceDistinct(a, b[1..]);
      }
    }
  }

  /** A subsequence takes its elements from the sequence. */
  lemma {:induction false} SubsequenceMembers(a: seq<string>, b: seq<string>)
    requires IsSubsequence(a, b)
    ensures forall x :: x in a ==> x in b
  {
    if b != [] {
      if a != [] && a[0] == b[0] && IsSubsequence(a[1..], b[1..]) {
        SubsequenceMembers(a[1..], b[1..]);
        assert a == [a[0]] + a[1..];
      } else {
        SubsequenceMembers(a, b[1..]);
      }
    }
  }

  /** `tags.slice(0, 12)`: the first twelve tags, or all of them when there are fewer. */
  function PopularTags(tags: seq<string>): (r: seq<string>)
    ensures |r| == if |tags| < MaxPopularTags then |tags| else MaxPopularTags
    ensures r == tags[..|r|]
  {
    Slice(tags, 0, MaxPopularTags)
  }
}
