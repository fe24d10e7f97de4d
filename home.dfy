/** The review list of the home page (client/src/pages/home.tsx): the candidates (every
    review, or the fuzzy-search hits with their highlights), the four filters applied
    one after another, the sort, and the cut into pages of six. */
module Home {
  import opened JsBuiltins
  import opened Reviews
  import opened FuseSearch
  import opened Sorting
  import Pagination

  const ItemsPerPage: nat := 6

  /** The highlighted title and summary of a search hit. */
  datatype Highlight = Highlight(title: string, summary: string)

  /** One row of the list: the review, and its highlights when it came from a search. */
  datatype Entry = Entry(review: Review, highlighted: Option<Highlight>)

  /** allReviews.map(review => ({ review })) */
  function Unhighlighted(all: seq<Review>): seq<Entry> {
    seq(|all|, i requires 0 <= i < |all| => Entry(all[i], None))
  }

  /** A search hit with the matches highlighted in its title and its summary. */
  function HighlightedHit(hit: FuseResult): Entry {
    Entry(hit.item, Some(Highlight(Highlighted(hit.item.title, hit.matches),
                                   Highlighted(hit.item.reviewSummary, hit.matches))))
  }

  /** searchResults.map(...): each hit with its title and summary highlighted. */
  function SearchEntries(hits: seq<FuseResult>): seq<Entry> {
    seq(|hits|, i requires 0 <= i < |hits| => HighlightedHit(hits[i]))
  }

  /** The list before filtering: every review, unhighlighted, for a blank query; the
      search hits, highlighted and in Fuse's order, otherwise. */
  function Candidates(all: seq<Review>, hits: seq<FuseResult>, query: string): (r: seq<Entry>)
    ensures AllSpace(query) ==> |r| == |all| && forall i :: 0 <= i < |all| ==> r[i] == Entry(all[i], None)
    ensures !AllSpace(query) ==> |r| == |hits|
    ensures !AllSpace(query) ==>
              forall i :: 0 <= i < |hits| ==> r[i].review == hits[i].item && r[i].highlighted.Some?
  {
    TrimEmptyIffBlank(query);
    if Trim(query) != "" then SearchEntries(hits) else Unhighlighted(all)
  }

  // ---------------------------------------------------------------- the filters

  predicate MatchesDomain(f: Filters, r: Review) {
    !Truthy(f.domain) || r.domain == f.domain.value
  }

  /** The year is compared as text: the review's year printed in decimal. */
  predicate MatchesYear(f: Filters, r: Review) {
    !Truthy(f.year) || IntToString(r.lastUpdated.year) == f.year.value
  }

  /** The tag filter applies only to a non-empty tag list. */
  predicate TagsSelected(f: Filters) {
    f.tags.Some? && |f.tags.value| > 0
  }

  /** Match-any: the review carries at least one of the selected tags. */
  predicate MatchesTags(f: Filters, r: Review) {
    !TagsSelected(f) || exists t :: t in f.tags.value && t in r.tags
  }

  /** The reading-time buckets; an unknown bucket name keeps everything. */
  predicate InBucket(bucket: string, minutes: int) {
    if bucket == "quick" then minutes < 10
    else if bucket == "medium" then 10 <= minutes <= 20
    else if bucket == "long" then minutes > 20
    else true
  }

  predicate MatchesReadingTime(f: Filters, r: Review) {
    !Truthy(f.readingTime) || InBucket(f.readingTime.value, r.estimatedReadingTime)
  }

  predicate MatchesAll(f: Filters, r: Review) {
    MatchesDomain(f, r) && MatchesYear(f, r) && MatchesTags(f, r) && MatchesReadingTime(f, r)
  }

  /** The candidates that pass every filter, in their order. */
  function Passing(candidates: seq<Entry>, f: Filters): (r: seq<Entry>)
    ensures IsSubsequence(r, candidates)
    ensures forall e :: e in r <==> e in candidates && MatchesAll(f, e.review)
  {
    FilterIsSubsequence(candidates, (e: Entry) => MatchesAll(f, e.review));
    Filter(candidates, (e: Entry) => MatchesAll(f, e.review))
  }

  // ---------------------------------------------------------------- the sort

  /** The comparator of results.sort: "comes before" for each sort key. A key the
      switch does not know compares everything as equal. */
  function Order(sortBy: string): (Entry, Entry) -> bool {
    (a: Entry, b: Entry) =>
      if sortBy == "recent" then b.review.lastUpdated.millis - a.review.lastUpdated.millis < 0
      else if sortBy == "alphabetical" then StrLess(a.review.title, b.review.title)
      else if sortBy == "reading-time" then a.review.estimatedReadingTime - b.review.estimatedReadingTime < 0
      else false
  }

  lemma OrderIsStrictWeakOrder(sortBy: string)
    ensures StrictWeakOrder(Order(sortBy))
  {
    var less := Order(sortBy);
    if sortBy == "alphabetical" {
      forall a: Entry, b: Entry | less(a, b) ensures !less(b, a) {
        StrLessTotal(a.review.title, b.review.title);
      }
      forall a: Entry, b: Entry, c: Entry | !less(a, b) && !less(b, c) ensures !less(a, c) {
        var x, y, z := a.review.title, b.review.title, c.review.title;
        StrLessTotal(x, y);
        StrLessTotal(y, z);
        if StrLess(z, y) && StrLess(y, x) {
          StrLessTransitive(z, y, x);
        }
        StrLessTotal(x, z);
      }
    }
  }

  /** The whole of filteredAndSortedReviews. */
  function Pipeline(all: seq<Review>, hits: seq<FuseResult>, f: Filters, sortBy: string): seq<Entry> {
    Sort(Passing(Candidates(all, hits, f.query), f), Order(sortBy))
  }

  /** The sorted list holds exactly the candidates that pass the filters, each once
      for each time it was a candidate, and is in the order of the sort key; an
      unknown key leaves the filtered order as it was. */
  lemma PipelineOrdered(all: seq<Review>, hits: seq<FuseResult>, f: Filters, sortBy: string)
    ensures var r := Pipeline(all, hits, f, sortBy);
            && multiset(r) == multiset(Passing(Candidates(all, hits, f.query), f))
            && (forall e :: e in r ==> MatchesAll(f, e.review))
            && (sortBy == "recent" ==> forall i, j :: 0 <= i < j < |r| ==>
                  r[i].review.lastUpdated.millis >= r[j].review.lastUpdated.millis)
            && (sortBy == "alphabetical" ==> forall i, j :: 0 <= i < j < |r| ==>
                  !StrLess(r[j].review.title, r[i].review.title))
            && (sortBy == "reading-time" ==> forall i, j :: 0 <= i < j < |r| ==>
                  r[i].review.estimatedReadingTime <= r[j].review.estimatedReadingTime)
            && (sortBy != "recent" && sortBy != "alphabetical" && sortBy != "reading-time" ==>
                  r == Passing(Candidates(all, hits, f.query), f))
  {
    var passing := Passing(Candidates(all, hits, f.query), f);
    var r := Pipeline(all, hits, f, sortBy);
    OrderIsStrictWeakOrder(sortBy);
    SortSorted(passing, Order(sortBy));
    forall e | e in r ensures MatchesAll(f, e.review) {
      assert e in multiset(passing);
    }
    if sortBy != "recent" && sortBy != "alphabetical" && sortBy != "reading-time" {
      SortAllTied(passing, Order(sortBy));
    }
  }

  /** Reviews the sort key ties (same timestamp, same title, same reading time) keep
      their order from the candidate list. */
  lemma PipelineStable(all: seq<Review>, hits: seq<FuseResult>, f: Filters, sortBy: string, x: Entry)
    ensures TiedWith(Pipeline(all, hits, f, sortBy), Order(sortBy), x)
         == TiedWith(Passing(Candidates(all, hits, f.query), f), Order(sortBy), x)
  {
    OrderIsStrictWeakOrder(sortBy);
    SortStable(Passing(Candidates(all, hits, f.query), f), Order(sortBy), x);
  }

  /** With no filter set, filtering keeps every candidate. */
  lemma UnsetFiltersKeepAll(candidates: seq<Entry>, f: Filters)
    requires !Truthy(f.domain) && !Truthy(f.year) && !TagsSelected(f) && !Truthy(f.readingTime)
    ensures Passing(candidates, f) == candidates
  {
    FilterAll(candidates, (e: Entry) => MatchesAll(f, e.review));
  }

  /** A blank query, no filter and a sort key the comparator does not know: every
      review, in the order it was loaded, without highlights. */
  lemma BlankQueryShowsAll(all: seq<Review>, hits: seq<FuseResult>, f: Filters, sortBy: string)
    requires AllSpace(f.query)
    requires !Truthy(f.domain) && !Truthy(f.year) && !TagsSelected(f) && !Truthy(f.readingTime)
    requires sortBy != "recent" && sortBy != "alphabetical" && sortBy != "reading-time"
    ensures Pipeline(all, hits, f, sortBy) == Unhighlighted(all)
  {
    var candidates := Candidates(all, hits, f.query);
    UnsetFiltersKeepAll(candidates, f);
    PipelineOrdered(all, hits, f, sortBy);
  }

  /** Comparing printed years compares the years. */
  lemma YearFilterMeansYear(f: Filters, r: Review, year: int)
    requires f.year == Some(IntToString(year))
    ensures MatchesYear(f, r) <==> r.lastUpdated.year == year
  {
    if MatchesYear(f, r) {
      IntToStringInjective(r.lastUpdated.year, year);
    }
  }

  /** The three buckets split the minutes without gap or overlap; 10 and 20 are medium. */
  lemma BucketsPartition(minutes: int, other: string)
    requires other != "quick" && other != "medium" && other != "long"
    ensures InBucket("quick", minutes) || InBucket("medium", minutes) || InBucket("long", minutes)
    ensures !(InBucket("quick", minutes) && InBucket("medium", minutes))
    ensures !(InBucket("medium", minutes) && InBucket("long", minutes))
    ensures !(InBucket("quick", minutes) && InBucket("long", minutes))
    ensures InBucket("medium", 10) && InBucket("medium", 20) && !InBucket("quick", 10) && !InBucket("long", 20)
    ensures InBucket(other, minutes)
  {
  }

  // ---------------------------------------------------------------- pages

  /** Math.ceil(n / ITEMS_PER_PAGE): the fewest pages of six that hold n items. */
  function TotalPages(n: nat): (r: nat)
    ensures r * ItemsPerPage >= n
    ensures r > 0 ==> (r - 1) * ItemsPerPage < n
  {
    (n + ItemsPerPage - 1) / ItemsPerPage
  }

  /** results.slice(startIndex, startIndex + ITEMS_PER_PAGE) */
  function PageOf<T>(results: seq<T>, page: int): seq<T> {
    var startIndex := (page - 1) * ItemsPerPage;
    Slice(results, startIndex, startIndex + ItemsPerPage)
  }

  /** A page in range is the next six items, or what is left; a page past the last
      is empty; no page holds more than six. */
  lemma PageContents<T>(results: seq<T>, page: int)
    ensures |PageOf(results, page)| <= ItemsPerPage
    ensures 1 <= page <= TotalPages(|results|) ==>
              var start := (page - 1) * ItemsPerPage;
              var end := if page * ItemsPerPage < |results| then page * ItemsPerPage else |results|;
              start < end && PageOf(results, page) == results[start..end]
    ensures page > TotalPages(|results|) ==> PageOf(results, page) == []
  {
    var n := |results|;
    var start := (page - 1) * ItemsPerPage;
    var from, to := RelativeIndex(start, n), RelativeIndex(start + ItemsPerPage, n);
    if start < 0 {
      assert to <= from + ItemsPerPage;
    }
  }

  /** The pages 1..k one after another. */
  function PagesUpTo<T>(results: seq<T>, k: nat): seq<T> {
    if k == 0 then [] else PagesUpTo(results, k - 1) + PageOf(results, k)
  }

  /** Paging loses and repeats nothing: the pages in order are the whole list. */
  lemma {:induction false} PagesCoverResults<T>(results: seq<T>, k: nat)
    requires k <= TotalPages(|results|)
    ensures PagesUpTo(results, k) ==
              results[..if k * ItemsPerPage < |results| then k * ItemsPerPage else |results|]
  {
    if k > 0 {
      PagesCoverResults(results, k - 1);
      PageContents(results, k);
      var before := (k - 1) * ItemsPerPage;
      var end := if k * ItemsPerPage < |results| then k * ItemsPerPage else |results|;
      assert results[..end] == results[..before] + results[before..end];
    }
  }

  lemma AllPagesAreTheList<T>(results: seq<T>)
    ensures PagesUpTo(results, TotalPages(|results|)) == results
  {
    PagesCoverResults(results, TotalPages(|results|));
  }

  /** The "Showing X to Y" line of the pagination bar counts exactly the items the
      home page puts on the current page. */
  lemma ShowingMatchesPage<T>(results: seq<T>, page: int)
    requires 1 <= page <= TotalPages(|results|)
    ensures Pagination.StartItem(page, ItemsPerPage) == (page - 1) * ItemsPerPage + 1
    ensures Pagination.EndItem(page, ItemsPerPage, |results|)
         == (page - 1) * ItemsPerPage + |PageOf(results, page)|
  {
    PageContents(results, page);
  }

  // ---------------------------------------------------------------- the page state

  /** A non-blank query with no search hits shows nothing, whatever the reviews. */
  lemma NoHitsShowNothing(all: seq<Review>, f: Filters, sortBy: string)
    requires !AllSpace(f.query)
    ensures Pipeline(all, [], f, sortBy) == []
  {
    var candidates := Candidates(all, [], f.query);
    assert candidates == [];
    PipelineOrdered(all, [], f, sortBy);
    var r := Pipeline(all, [], f, sortBy);
    assert multiset(r) == multiset(Passing(candidates, f)) == multiset{};
  }

  /** The state of the Home component and the search service it uses. `shown` is the
      memoised filteredAndSortedReviews: it is recomputed only when allReviews, filters
      or sortBy change, so it answers from the index as it was at that moment. */
  class HomePage {
    var allReviews: seq<Review>
    var filters: Filters
    var sortBy: string
    var currentPage: int
    var shown: seq<Entry>
    const fuse: FuseSearchService

    /** The first render: no reviews and a blank query, so the memo is empty. */
    constructor (service: FuseSearchService)
      ensures allReviews == [] && filters == NoFilters && sortBy == "recent" && currentPage == 1
      ensures shown == []
      ensures fuse == service
    {
      allReviews := [];
      filters := NoFilters;
      sortBy := "recent";
      currentPage := 1;
      shown := [];
      fuse := service;
    }

    /** The reviews arrive: the render that brings them recomputes the memo while the
        index is still the old one, and only then does the effect build the index from
        them (unless the list is empty); the current page stays. */
    method ReviewsLoaded(reviews: seq<Review>, engine: Engine)
      modifies this, fuse
      ensures allReviews == reviews
      ensures shown == Pipeline(reviews, old(fuse.Search(filters.query, engine)), filters, sortBy)
      ensures fuse.index == if |reviews| > 0 then Some(reviews) else old(fuse.index)
      ensures filters == old(filters) && sortBy == old(sortBy) && currentPage == old(currentPage)
    {
      allReviews := reviews;
      Memoize(engine);
      if |reviews| > 0 {
        fuse.Initialize(reviews);
      }
    }

    /** The filter panel emits a new filters object: the memo is recomputed and the
        page goes back to 1. */
    method FiltersChanged(f: Filters, engine: Engine)
      modifies this
      ensures filters == f && currentPage == 1
      ensures shown == Pipeline(allReviews, fuse.Search(f.query, engine), f, sortBy)
      ensures allReviews == old(allReviews) && sortBy == old(sortBy)
    {
      filters := f;
      Memoize(engine);
      currentPage := 1;
    }

    /** "Clear All Filters" on the empty list. */
    method ClearAllFilters(engine: Engine)
      modifies this
      ensures filters == NoFilters && currentPage == 1
      ensures shown == Pipeline(allReviews, fuse.Search(NoFilters.query, engine), NoFilters, sortBy)
      ensures allReviews == old(allReviews) && sortBy == old(sortBy)
    {
      FiltersChanged(NoFilters, engine);
    }

    /** A new sort key recomputes the memo and sends the reader back to page 1;
        selecting the key already in use changes no state, so list and page stay. */
    method SortChanged(key: string, engine: Engine)
      modifies this
      ensures sortBy == key
      ensures currentPage == if key == old(sortBy) then old(currentPage) else 1
      ensures shown == if key == old(sortBy) then old(shown)
                       else Pipeline(allReviews, fuse.Search(filters.query, engine), filters, key)
      ensures allReviews == old(allReviews) && filters == old(filters)
    {
      if key != sortBy {
        sortBy := key;
        Memoize(engine);
        currentPage := 1;
      }
    }

    /** A page button: the memo's dependencies are untouched, so the list stays. */
    method PageChanged(page: int)
      modifies this
      ensures currentPage == page
      ensures allReviews == old(allReviews) && filters == old(filters) && sortBy == old(sortBy)
      ensures shown == old(shown)
    {
      currentPage := page;
    }

    /** The memo's body: the candidates, narrowed by each filter that is set, then
        sorted in place. */
    method FilterAndSort(engine: Engine) returns (results: seq<Entry>)
      ensures results == Pipeline(allReviews, fuse.Search(filters.query, engine), filters, sortBy)
    {
      var f := filters;
      var hits := fuse.Search(f.query, engine);
      if Trim(f.query) != "" {
        results := HighlightHits(hits);
      } else {
        results := Unhighlighted(allReviews);
      }
      assert results == Candidates(allReviews, hits, f.query);
      results := ApplyFilters(results, f);
      results := Sort(results, Order(sortBy));
    }

    /** A render after a dependency changed: the memo takes the body's value. */
    method Memoize(engine: Engine)
      modifies this
      ensures shown == Pipeline(allReviews, fuse.Search(filters.query, engine), filters, sortBy)
      ensures allReviews == old(allReviews) && filters == old(filters)
      ensures sortBy == old(sortBy) && currentPage == old(currentPage)
    {
      shown := FilterAndSort(engine);
    }

    /** The reviews on the current page of the memoised list and the number of pages. */
    method CurrentPage() returns (paginated: seq<Entry>, totalPages: nat)
      ensures paginated == PageOf(shown, currentPage) && totalPages == TotalPages(|shown|)
    {
      totalPages := TotalPages(|shown|);
      var startIndex := (currentPage - 1) * ItemsPerPage;
      paginated := Slice(shown, startIndex, startIndex + ItemsPerPage);
    }
  }

  /** A query typed while the reviews load: the render that brings them recomputes
      the memo before the index exists, so the list is empty although the index now
      holds the reviews, and it stays empty until the filters or the sort key change. */
  method QueryTypedBeforeLoad(f: Filters, reviews: seq<Review>, engine: Engine)
    returns (page: HomePage)
    requires !AllSpace(f.query)
    ensures page.allReviews == reviews && page.filters == f
    ensures |reviews| > 0 ==> page.fuse.Search(f.query, engine) == engine(reviews, f.query)
    ensures page.shown == []
  {
    var service := new FuseSearchService();
    page := new HomePage(service);
    page.FiltersChanged(f, engine);
    page.ReviewsLoaded(reviews, engine);
    NoHitsShowNothing(reviews, f, page.sortBy);
  }

  /** The mapping loop over the search hits, highlighting with the method. */
  method HighlightHits(hits: seq<FuseResult>) returns (results: seq<Entry>)
    ensures results == SearchEntries(hits)
  {
    results := [];
    var i := 0;
    while i < |hits|
      invariant 0 <= i <= |hits|
      invariant |results| == i
      invariant forall k :: 0 <= k < i ==> results[k] == HighlightedHit(hits[k])
    {
      var title := HighlightMatches(hits[i].item.title, hits[i].matches);
      var summary := HighlightMatches(hits[i].item.reviewSummary, hits[i].matches);
      results := results + [Entry(hits[i].item, Some(Highlight(title, summary)))];
      i := i + 1;
    }
    assert results == SearchEntries(hits);
  }

  /** The four `if (filters.x) results = results.filter(...)` steps. */
  method ApplyFilters(candidates: seq<Entry>, f: Filters) returns (results: seq<Entry>)
    ensures results == Passing(candidates, f)
  {
    results := candidates;
    var byDomain := (e: Entry) => MatchesDomain(f, e.review);
    var byYear := (e: Entry) => MatchesYear(f, e.review);
    var byTags := (e: Entry) => MatchesTags(f, e.review);
    var byTime := (e: Entry) => MatchesReadingTime(f, e.review);
    if Truthy(f.domain) {
      results := Filter(results, byDomain);
    } else {
      FilterAll(results, byDomain);
    }
    if Truthy(f.year) {
      results := Filter(results, byYear);
    } else {
      FilterAll(results, byYear);
    }
    if f.tags.Some? && |f.tags.value| > 0 {
      results := Filter(results, byTags);
    } else {
      FilterAll(results, byTags);
    }
    if Truthy(f.readingTime) {
      results := Filter(results, byTime);
    } else {
      FilterAll(results, byTime);
    }
    NarrowInTurn(candidates, f);
  }

  /** The four filters applied in turn keep exactly what passes all of them. */
  lemma NarrowInTurn(candidates: seq<Entry>, f: Filters)
    ensures Filter(Filter(Filter(Filter(candidates,
              (e: Entry) => MatchesDomain(f, e.review)),
              (e: Entry) => MatchesYear(f, e.review)),
              (e: Entry) => MatchesTags(f, e.review)),
              (e: Entry) => MatchesReadingTime(f, e.review))
         == Passing(candidates, f)
  {
    var d := (e: Entry) => MatchesDomain(f, e.review);
    var dy := (e: Entry) => MatchesDomain(f, e.review) && MatchesYear(f, e.review);
    var dyt := (e: Entry) => MatchesDomain(f, e.review) && MatchesYear(f, e.review) && MatchesTags(f, e.review);
    FilterThenFilter(candidates, d, (e: Entry) => MatchesYear(f, e.review), dy);
    FilterThenFilter(candidates, dy, (e: Entry) => MatchesTags(f, e.review), dyt);
    FilterThenFilter(candidates, dyt, (e: Entry) => MatchesReadingTime(f, e.review),
                     (e: Entry) => MatchesAll(f, e.review));
  }
}
