# MLP Research reviews — a verified model of the review catalogue

The site publishes research reviews. This project models its core in Dafny.

The home page's pipeline:

- fuzzy search, or all reviews;
- then the domain, year, tag and reading-time filters, in that order;
- then a stable sort on the chosen key;
- then six results per page with a windowed page bar.

The rest of the core:

- the two filter panels that emit the filters, and the search-analytics log kept in
  localStorage;
- the server's in-memory review store (`MemStorage`): its id counter, its
  create/update/delete rules, its lookups, its text search and its sorted domain and
  tag lists;
- the mock authentication service with its role table;
- the navigation header's active-link rule;
- the slug validator that redirects to a review's canonical URL.

Modules:

- `JsBuiltins`: the JavaScript semantics the code relies on.
  - `trim`, whitespace `split`, ASCII `toLowerCase`, `startsWith` and `includes`.
  - `slice` with negative indices, and `filter`.
  - Number-to-string conversion and code-unit string order.
- `Sorting`: `Array.prototype.sort` as a stable insertion sort.
  - Proved: for any strict weak order the result is sorted, a permutation, and stable.
- `Reviews`: the review record and the client's `SearchFilters`.
- `FuseSearch`, `Pagination`, `Home`: the client pipeline.
- `SearchAnalytics`, `FilterPanel`, `Sidebar`, `SearchPanel`: analytics and the filter panels.
- `Storage`, `Auth`, `Header`, `SlugValidator`: the server store, authentication,
  navigation and redirect.

How the source's state is modelled:

- Each piece of component state or object state whose fields the source updates is a
  Dafny `class` with `modifies` clauses: `MemStorage`, `AuthService`,
  `FuseSearchService`, the two filter panels, the home page and the analytics store.
- Loops in the source are `while` loops with invariants, proved against a
  specification function:
  - the page-window construction;
  - the highlight rewriting;
  - the term counting with a `Map`;
  - the filter chain;
  - the Set collection of domains and tags.
- The environment is passed in as parameters:
  - the clock (`now`, an `Instant` holding milliseconds and the calendar year);
  - whether a localStorage write succeeds;
  - the Fuse.js engine (a function from index and query to results);
  - the data fetched from the API.
- A JavaScript `Map` iterates in insertion order. Ids come from a counter that is never
  reused, and `set` on an existing key keeps its position. So the store's values are
  listed in ascending id order (`Storage.Values`).

Behaviour of the code worth knowing:

- With no results, `Math.ceil(0 / 6)` gives zero pages, not one (`Home.TotalPages`).
- A page past the end gives an empty slice, not the last page (`Home.PageContents`).
- Neither a filter change nor a page change clamps the current page. A filter or sort
  change resets it to 1, and `onPageChange` stores whatever page it is given.
- The sidebar's "Clear All" sets domain and year to `"all"`, not to empty. See Findings.
- The memoised list depends only on the reviews, the filters and the sort key
  (client/src/pages/home.tsx:106), and the search index is built by an effect after the
  render (client/src/pages/home.tsx:33-37). A query typed while the reviews load is
  therefore answered by the old index, or by none, when they arrive. On the first load
  the list stays empty until the filters or the sort key change
  (`Home.QueryTypedBeforeLoad`).

## Model

| member | source | states |
|---|---|---|
| JsBuiltins.TrimEmptyIffBlank | client/src/pages/home.tsx:44 | `query.trim()` is empty exactly when every character of the query is whitespace |
| JsBuiltins.TrimIdempotent | client/src/components/search-analytics.tsx:18 | trimming an already trimmed query changes nothing |
| JsBuiltins.SplitSpaces | client/src/components/search-analytics.tsx:53 | splitting on whitespace runs yields at least one piece, none holding whitespace, all lower-case when the input is |
| JsBuiltins.StrLessTransitive | server/storage.ts:521 | the default sort order of strings is transitive |
| JsBuiltins.StrLessTotal | server/storage.ts:521 | of two different strings one sorts before the other |
| JsBuiltins.IntToStringInjective | client/src/pages/home.tsx:64 | different years print as different strings, so comparing printed years compares years |
| JsBuiltins.Slice | client/src/pages/home.tsx:116 | `slice(start, end)` within bounds is exactly that range; it is never longer than the list or the range, and empty when end <= start |
| JsBuiltins.Filter | client/src/pages/home.tsx:59 | `filter` keeps exactly the elements that pass and is never longer |
| JsBuiltins.FilterIsSubsequence | server/storage.ts:402 | a filtered list is a subsequence of the original |
| JsBuiltins.FilterThenFilter | client/src/pages/home.tsx:57-89 | two filters in a row keep what passes both |
| Sorting.Sort | client/src/pages/home.tsx:92-103 | sorting keeps the length and the multiset of elements |
| Sorting.SortSorted | client/src/pages/home.tsx:92-103 | for a strict weak order the sorted list has no inversions |
| Sorting.SortStable | client/src/pages/home.tsx:92-103 | elements the comparator ties keep their relative order (the sort is stable) |
| Sorting.SortAllTied | client/src/pages/home.tsx:100-101 | a comparator that ties everything leaves the list as it was |
| FuseSearch.FuseSearchService.constructor | client/src/lib/fuse-search.ts:20 | a new service has no index |
| FuseSearch.FuseSearchService.Initialize | client/src/lib/fuse-search.ts:22-24 | initialising indexes exactly the given reviews, replacing any earlier index |
| FuseSearch.FuseSearchService.Search | client/src/lib/fuse-search.ts:26-31 | without an index, or for a blank query, there are no results; otherwise the engine's answer for the untrimmed query |
| FuseSearch.ReinitializeForgetsOldIndex | client/src/lib/fuse-search.ts:22-31 | after a second initialise a search answers from the newest reviews only |
| FuseSearch.StartsLaterIsStrictWeakOrder | client/src/lib/fuse-search.ts:49 | the descending-start comparator is a strict weak order |
| FuseSearch.HighlightMatches | client/src/lib/fuse-search.ts:33-59 | the loop's result is the specified highlighting; no matches, or no title/summary matches, return the text unchanged |
| FuseSearch.HighlightRangesDescend | client/src/lib/fuse-search.ts:38-49 | the ranges applied are exactly the title and summary index pairs, ordered by descending start |
| FuseSearch.HighlightOneRange | client/src/lib/fuse-search.ts:51-56 | one range wraps exactly the characters start..end (inclusive) in a mark element |
| FuseSearch.PiecesUnmarked | client/src/lib/fuse-search.ts:51-56 | removing the marks from the pieces gives back the original text |
| FuseSearch.ApplyRendersPieces | client/src/lib/fuse-search.ts:51-56 | rewriting from the last range backwards renders the text as plain and marked pieces |
| FuseSearch.HighlightPreservesText | client/src/lib/fuse-search.ts:46-58 | for disjoint in-bounds ranges, the highlighted markup is the original text with marks inserted and nothing else changed |
| FuseSearch.PermutedRangesDisjoint | client/src/lib/fuse-search.ts:47-49 | sorting keeps disjoint in-bounds ranges disjoint and in bounds |
| Pagination.StartItem | components/pagination.tsx:23 | the first item shown is one past the items on earlier pages |
| Pagination.EndItem | components/pagination.tsx:24 | the last item shown is the page's end, cut at the total |
| Pagination.NavigationStaysInRange | components/pagination.tsx:66-67 | an enabled Previous or Next button asks for a page inside 1..totalPages; both are disabled only when there is a single page |
| Pagination.VisiblePages | components/pagination.tsx:26-50 | the bar starts with page 1 and ends with the last page; its pages are exactly 1, the last and those within two of the current page (the current page included); pages strictly increase; leading and trailing dots appear exactly when pages are skipped |
| Pagination.Render | components/pagination.tsx:21-52 | nothing is rendered for at most one page; otherwise the counts and the visible pages |
| Pagination.WindowSpaced | components/pagination.tsx:31-47 | the leading dots appear iff the window starts after page 2 (`currentPage - 2 > 2`), the trailing dots iff it ends before totalPages - 1 (`currentPage + 2 < totalPages - 1`); the row ends with a page button |
| Pagination.ConsecutiveButtons | components/pagination.tsx:31-33 | two adjacent numbered buttons are consecutive pages |
| Pagination.DotsMarkGaps | components/pagination.tsx:35-47 | every ellipsis stands between two numbered buttons with at least one page skipped |
| Pagination.SpacedPagesIncrease | components/pagination.tsx:26-50 | the page numbers in the bar strictly increase |
| Home.Candidates | client/src/pages/home.tsx:43-55 | a blank query lists every review without highlighting; otherwise every search hit in the engine's order, with title and summary highlighted |
| Home.Passing | client/src/pages/home.tsx:57-89 | the filters keep, in order, exactly the candidates that match every set filter |
| Home.ApplyFilters | client/src/pages/home.tsx:57-89 | the filter chain computes `Passing` |
| Home.NarrowInTurn | client/src/pages/home.tsx:57-89 | applying the four filters one after another equals the single combined filter |
| Home.HighlightHits | client/src/pages/home.tsx:45-52 | the map over search hits produces one highlighted entry per hit, in order |
| Home.OrderIsStrictWeakOrder | client/src/pages/home.tsx:92-103 | every sort key (recent, alphabetical, reading time, other) is a strict weak order |
| Home.PipelineOrdered | client/src/pages/home.tsx:39-106 | the displayed list is a permutation of the passing candidates, all matching the filters, newest first for "recent", by title for "alphabetical", shortest first for "reading-time", and in candidate order for any other key |
| Home.PipelineStable | client/src/pages/home.tsx:92-103 | reviews the sort key ties stay in candidate order |
| Home.UnsetFiltersKeepAll | client/src/pages/home.tsx:57-89 | with no filter set, every candidate passes |
| Home.BlankQueryShowsAll | client/src/pages/home.tsx:43-103 | a blank query, no filters and an unknown sort key show all reviews in stored order |
| Home.YearFilterMeansYear | client/src/pages/home.tsx:62-67 | the year filter keeps exactly the reviews last updated in that year |
| Home.BucketsPartition | client/src/pages/home.tsx:75-89 | quick, medium and long split the reading times with no overlap, 10 and 20 being medium; an unknown bucket keeps everything |
| Home.TotalPages | client/src/pages/home.tsx:114 | the page count is the least count of six-item pages holding every result (zero for no results) |
| Home.PageContents | client/src/pages/home.tsx:115-116 | a page holds at most six results: a full page before the last, the remainder on the last, nothing past the end |
| Home.PagesCoverResults | client/src/pages/home.tsx:114-116 | the first k pages, concatenated, are the first k*6 results |
| Home.AllPagesAreTheList | client/src/pages/home.tsx:114-116 | all pages concatenated are the result list |
| Home.ShowingMatchesPage | client/src/pages/home.tsx:114-116 | the "Showing a to b" counts of the pagination bar agree with the slice shown |
| Home.HomePage.constructor | client/src/pages/home.tsx:20-25 | no reviews, no filters, sort "recent", page 1, and an empty memoised list |
| Home.HomePage.ReviewsLoaded | client/src/pages/home.tsx:28-37 | the memo is recomputed over the new reviews with the index as it was before the load; only then is the index built, and only from a non-empty list |
| Home.HomePage.FiltersChanged | client/src/pages/home.tsx:106-111 | new filters recompute the memo over the current index and reset the page to 1 |
| Home.HomePage.ClearAllFilters | client/src/pages/home.tsx:225 | clearing removes every filter, recomputes the memo and resets the page to 1 |
| Home.HomePage.SortChanged | client/src/pages/home.tsx:106-111 | a different sort key recomputes the memo and resets the page to 1; choosing the same key keeps both the list and the page |
| Home.HomePage.PageChanged | client/src/pages/home.tsx:250 | the page is set as asked, and the memoised list and everything else are kept |
| Home.HomePage.Memoize | client/src/pages/home.tsx:40-106 | a recomputation stores the pipeline over the state and index of that moment and changes nothing else |
| Home.HomePage.FilterAndSort | client/src/pages/home.tsx:40-106 | the memo's body computes the pipeline over the current state and index |
| Home.HomePage.CurrentPage | client/src/pages/home.tsx:113-116 | the page shown is the current page's slice of the memoised list, with its page count |
| Home.NoHitsShowNothing | client/src/pages/home.tsx:43-52 | a non-blank query with no search hits shows an empty list, whatever the reviews and filters |
| Home.QueryTypedBeforeLoad | client/src/pages/home.tsx:33-37 | a query typed before the first load leaves the list empty after the load, although the index now answers the query from the loaded reviews |
| SearchAnalytics.Prepend | client/src/components/search-analytics.tsx:28-29 | the new search goes first; at most 100 entries remain, the older ones in order |
| SearchAnalytics.LogKeepsNewest | client/src/components/search-analytics.tsx:12 | after any sequence of searches the log holds the 100 newest, newest first |
| SearchAnalytics.Terms | client/src/components/search-analytics.tsx:53 | a query's terms are lower-case, have no whitespace and are longer than two characters |
| SearchAnalytics.AllTerms | client/src/components/search-analytics.tsx:51-58 | the terms of the whole history, each lower-case and longer than two characters |
| SearchAnalytics.Distinct | client/src/components/search-analytics.tsx:60 | the Map's keys: the same terms, in first-seen order |
| SearchAnalytics.DistinctNoRepeats | client/src/components/search-analytics.tsx:60 | no term is listed twice |
| SearchAnalytics.Tally | client/src/components/search-analytics.tsx:55 | each listed term is paired with its number of occurrences |
| SearchAnalytics.MoreFrequentIsStrictWeakOrder | client/src/components/search-analytics.tsx:62 | the by-count comparator is a strict weak order |
| SearchAnalytics.PopularTermsSpec | client/src/components/search-analytics.tsx:47-64 | at most `limit` rows, in non-increasing count; each row a distinct term with its true positive count |
| SearchAnalytics.PopularTermsComplete | client/src/components/search-analytics.tsx:60-63 | a term left out has a count no higher than any row shown, and the list is then full |
| SearchAnalytics.AnalyticsStore.constructor | client/src/components/search-analytics.tsx:11 | the store starts with the given localStorage value |
| SearchAnalytics.AnalyticsStore.SearchHistory | client/src/components/search-analytics.tsx:38-45 | the stored history, or the empty list when nothing is stored or it does not parse |
| SearchAnalytics.AnalyticsStore.LogSearch | client/src/components/search-analytics.tsx:15-36 | the trimmed search goes first in the history when the write succeeds; a failure changes nothing |
| SearchAnalytics.AnalyticsStore.SearchSettled | client/src/components/search-analytics.tsx:103-112 | only a query or a truthy filter value is logged, as LogSearch logs it; unreadable stored text or a refused write leaves the store as it was |
| SearchAnalytics.AnalyticsStore.PopularSearchTerms | client/src/components/search-analytics.tsx:47-64 | the counting loop and the sort compute the popular-terms specification |
| SearchAnalytics.AnalyticsStore.DefaultPopularSearchTerms | client/src/components/search-analytics.tsx:47 | called without a limit, the popular terms for the default limit of ten, so at most ten rows |
| SearchAnalytics.AnalyticsStore.FilterUsage | client/src/components/search-analytics.tsx:66-84 | the total, and for each filter the number of logged searches that set it |
| SearchAnalytics.Entries | client/src/components/search-analytics.tsx:60-61 | the Map's entries are the tally of the distinct terms in insertion order |
| SearchAnalytics.CountWhereFilters | client/src/components/search-analytics.tsx:76-81 | each usage count equals the number of searches that pass that filter test |
| Storage.EnsureStringArray | server/storage.ts:6-10 | an array stays as it is, a string becomes a one-element array, anything else the empty array |
| Storage.EnsureStringArrayIdempotent | server/storage.ts:6-10 | normalising an already normalised value changes nothing |
| Storage.Created | server/storage.ts:440-463 | the new review has the given id and both timestamps set to now; its version is never empty (default "1.0"); `published` is never 0 (default 1); the optional texts are never empty strings; authors and tags are normalised |
| Storage.Merged | server/storage.ts:472-493 | id and creation time are kept, and the update time is now; a falsy field keeps the old value; a nullable field is replaced whenever present, null included |
| Storage.EmptyPatchTouchesOnly | server/storage.ts:472-493 | an empty update changes only the update time |
| Storage.MergeIdempotent | server/storage.ts:472-493 | applying the same update twice equals applying it once |
| Storage.FalsyUpdatesIgnored | server/storage.ts:474-485 | an empty title or a zero word count leaves those fields unchanged |
| Storage.IdsBelow | server/storage.ts:379-381 | the ids in insertion order: exactly the stored ids, ascending |
| Storage.ValuesAreTheMap | server/storage.ts:379-381 | the listed values are exactly the stored reviews, in ascending id |
| Storage.FindByNidAndSlug | server/storage.ts:387-391 | the first review with that nid and slug, and none only when no review has both |
| Storage.Published | server/storage.ts:393-395 | exactly the reviews with published 1, in order |
| Storage.ByDomain | server/storage.ts:502-506 | exactly the published reviews of that domain, in order |
| Storage.ByTag | server/storage.ts:508-512 | exactly the published reviews carrying that tag, in order |
| Storage.Search | server/storage.ts:397-438 | exactly the published reviews that mention the query case-insensitively in one of the six fields and pass the set domain, year and tag filters, in order |
| Storage.ByText | server/storage.ts:404-414 | with a non-empty query, keeps exactly the reviews whose lower-cased title, summary, content, an author, a tag or the domain contains the lower-cased query; an empty query keeps everything; order is kept |
| Storage.ByDomainFilter | server/storage.ts:417-419 | with a non-empty domain, keeps exactly the reviews of that domain; otherwise everything; order is kept |
| Storage.ByYearFilter | server/storage.ts:422-427 | with a non-empty year, keeps exactly the reviews whose last-update year prints as that text; otherwise everything; order is kept |
| Storage.ByTagsFilter | server/storage.ts:430-434 | with a non-empty tag list, keeps exactly the reviews carrying one of the tags; otherwise everything; order is kept |
| Storage.SearchIgnoresCase | server/storage.ts:405-414 | lower-casing the query first does not change the results |
| Storage.SearchOnlyPublished | server/storage.ts:402 | a search never returns an unpublished review |
| Storage.ByDomainIsSearch | server/storage.ts:502-506 | the by-domain list is the search with only that domain filter |
| Storage.ByTagIsSearch | server/storage.ts:508-512 | the by-tag list is the search with only that tag filter |
| Storage.SortedStrings | server/storage.ts:521 | sorting a set's values keeps exactly its members, in strictly ascending order |
| Storage.AddEach | server/storage.ts:528 | adding tags to a Set gives the union, still without repeats |
| Storage.CollectDomains | server/storage.ts:515-520 | the Set collects exactly the domains of published reviews, each once |
| Storage.CollectTags | server/storage.ts:525-530 | the Set collects exactly the tags of published reviews, each once |
| Storage.MemStorage.constructor | server/storage.ts:182-186 | seeding creates the samples with ids 1..n in order; the counter is n+1 |
| Storage.MemStorage.GetReviewById | server/storage.ts:383-385 | found exactly when stored, and what is found carries that id |
| Storage.MemStorage.NeverFindsAccounts | server/storage.ts:535-541 | the store holds no accounts: neither the lookup by id nor the one by username finds one |
| Storage.MemStorage.CreateUser | server/storage.ts:543-545 | account creation is always refused with the same message |
| Storage.MemStorage.CreateReview | server/storage.ts:440-466 | the new review takes the counter as its id, the counter advances, the id was free, and the review can be looked up by it |
| Storage.MemStorage.UpdateReview | server/storage.ts:468-496 | an unknown id gives nothing and changes nothing; a known one stores and returns the merged review |
| Storage.MemStorage.DeleteReview | server/storage.ts:498-500 | reports whether the id was stored, and removes it |
| Storage.MemStorage.GetAllDomains | server/storage.ts:514-522 | exactly the domains of published reviews, strictly ascending |
| Storage.MemStorage.GetAllTags | server/storage.ts:524-532 | exactly the tags of published reviews, strictly ascending |
| FilterPanel.Emitted | client/src/components/sidebar-filters.tsx:32-40 | "" and "all" emit no domain or year; no tags emit no tag list; an empty reading time emits none |
| FilterPanel.EmitsNothingIff | client/src/components/sidebar-filters.tsx:32-40 | a panel emits no filter exactly when the query and every choice are empty or "all" |
| FilterPanel.ClearedEmitsNothing | client/src/components/sidebar-filters.tsx:50-56 | after "Clear All" no filter is emitted |
| FilterPanel.ToggleTag | client/src/components/sidebar-filters.tsx:42-48 | toggling a selected tag removes it; toggling another appends it at the end |
| FilterPanel.ToggleTwiceRestores | client/src/components/sidebar-filters.tsx:42-48 | toggling an unselected tag twice restores the selection |
| FilterPanel.ToggleTwiceMovesToEnd | client/src/components/sidebar-filters.tsx:42-48 | toggling a selected tag twice moves it to the end |
| FilterPanel.ToggleKeepsTagsDistinct | client/src/components/sidebar-filters.tsx:42-48 | a selection without repeats keeps none |
| FilterPanel.PopularTags | client/src/components/sidebar-filters.tsx:60 | the first twelve tags, or all when there are fewer |
| Sidebar.ClearAllStaysShown | client/src/components/sidebar-filters.tsx:50-58 | as written, "Clear All" leaves the panel counted as active although nothing is filtered |
| Sidebar.ActiveIffFiltering | client/src/components/sidebar-filters.tsx:58 | the corrected test holds exactly when a filter is emitted |
| Sidebar.OneReadingTimeChecked | client/src/components/sidebar-filters.tsx:129-140 | at most one reading-time box is checked |
| Sidebar.SidebarFilters.constructor | client/src/components/sidebar-filters.tsx:16-20 | every selection starts empty and nothing is emitted |
| Sidebar.SidebarFilters.TagsLoaded | client/src/components/sidebar-filters.tsx:27-29 | the fetched tags replace the list and the selection is kept |
| Sidebar.SidebarFilters.SetQuery | client/src/components/sidebar-filters.tsx:79 | only the query changes |
| Sidebar.SidebarFilters.SetDomain | client/src/components/sidebar-filters.tsx:89 | only the domain changes |
| Sidebar.SidebarFilters.SetYear | client/src/components/sidebar-filters.tsx:109 | only the year changes |
| Sidebar.SidebarFilters.HandleTagToggle | client/src/components/sidebar-filters.tsx:42-48 | only the tag selection changes, by the toggle |
| Sidebar.SidebarFilters.HandleClearFilters | client/src/components/sidebar-filters.tsx:50-56 | query, tags and reading time are emptied and domain and year set to "all"; nothing is emitted, yet the sidebar's own test still holds, so "Clear All" stays on screen; the corrected test finds the panel inactive |
| Sidebar.SidebarFilters.ReadingTimeToggled | client/src/components/sidebar-filters.tsx:137-140 | checking a box selects its bucket; unchecking selects none |
| SearchPanel.ActiveIffChanged | components/search-filters.tsx:80 | the panel is active exactly when its selection differs from the initial one, which emits nothing |
| SearchPanel.SearchFilters.constructor | components/search-filters.tsx:15-21 | domain and year start at "all", everything else empty |
| SearchPanel.SearchFilters.DomainsFetched | components/search-filters.tsx:40-50 | only a successful response replaces the domain list |
| SearchPanel.SearchFilters.TagsFetched | components/search-filters.tsx:52-62 | only a successful response replaces the tag list |
| SearchPanel.SearchFilters.SetQuery | components/search-filters.tsx:101 | only the query changes |
| SearchPanel.SearchFilters.SetDomain | components/search-filters.tsx:111 | only the domain changes |
| SearchPanel.SearchFilters.SetYear | components/search-filters.tsx:131 | only the year changes |
| SearchPanel.SearchFilters.SetReadingTime | components/search-filters.tsx:171 | only the reading time changes |
| SearchPanel.SearchFilters.HandleTagToggle | components/search-filters.tsx:64-70 | only the tag selection changes, by the toggle |
| SearchPanel.SearchFilters.HandleClearFilters | components/search-filters.tsx:72-78 | the initial selection is restored; nothing is emitted and the panel is inactive |
| Auth.HasPermission | client/src/lib/auth.ts:119-129 | without a user only "read:public"; with one, exactly its role's permissions; an unknown role has none |
| Auth.RolesAreNotNested | client/src/lib/auth.ts:122-126 | an administrator or a reviewer lacks the public permissions; a reviewer cannot write all |
| Auth.Authenticate | client/src/lib/auth.ts:41-73 | login succeeds exactly for the two built-in addresses with password "demo", as admin (id "1") or reviewer (id "2"); otherwise "Invalid credentials" |
| Auth.Registered | client/src/lib/auth.ts:80-86 | a registered user is public and takes the current time in milliseconds as id |
| Auth.RegisteredIsPublic | client/src/lib/auth.ts:84 | a registered user has exactly the public permissions |
| Auth.RegisteredIdsDiffer | client/src/lib/auth.ts:81 | registrations at different milliseconds get different ids |
| Auth.AuthService.constructor | client/src/lib/auth.ts:38-39 | the service starts over the given localStorage value |
| Auth.AuthService.GetCurrentUser | client/src/lib/auth.ts:96-108 | the stored user, or null when nothing or unparsable text is stored |
| Auth.AuthService.SetStoredUser | client/src/lib/auth.ts:110-116 | a failed write is swallowed and keeps the old value |
| Auth.AuthService.Login | client/src/lib/auth.ts:41-73 | a successful login stores the user, who becomes the current user; a rejected one changes nothing |
| Auth.AuthService.Register | client/src/lib/auth.ts:75-90 | registration stores the new public user |
| Auth.AuthService.Logout | client/src/lib/auth.ts:92-94 | afterwards nobody is signed in |
| Header.IsActive | client/src/components/header.tsx:10-14 | the home link is active only at exactly "/"; any other link wherever the location starts with its path |
| Header.PrefixMatchIsNotSegmentAware | client/src/components/header.tsx:12 | every link but "/" is active at its path followed by anything, so "/about" is active at "/aboutx" as at "/about/team" |
| Header.RootIsExact | client/src/components/header.tsx:11 | the Reviews link is active at no location that continues past "/" |
| Header.AtMostOneLinkActive | client/src/components/header.tsx:10-20 | at any location at most one navigation link is active |
| SlugValidator.CanonicalPath | interfaces/SlugValidator.js:6 | the canonical address is "/mlp/reviews/", the nid, "/" and the slug |
| SlugValidator.CanonicalPathInjective | interfaces/SlugValidator.js:6 | for slash-free nids the address determines the nid and the slug |
| SlugValidator.ValidateAndRedirect | interfaces/SlugValidator.js:3-10 | matching slugs leave the response untouched; otherwise 301 with the canonical Location, and the response is ended |

## Left out

- `DatabaseStorage` (server/storage.ts:39-176): SQL through an ORM. Only the in-memory store is modelled.
- The seed texts of `MemStorage` (server/storage.ts:188-372): the three sample records are data. The constructor takes the samples as a parameter.
- Fuse.js scoring, its options (client/src/lib/fuse-search.ts:4-17) and its matching: a third-party engine. It is a function parameter of `Search`, and its results are taken as given.
- `FuseSearch.HighlightPreservesText`: assumes the matched ranges are in bounds, disjoint and not repeated. The engine is not modelled, so this cannot be derived.
- Dates: an `Instant` carries milliseconds and a calendar year. Time zones and the `Date` to year conversion are not modelled.
- `Storage.Created`: one clock reading stands for both `createdAt` and `lastUpdated`. The source reads the clock twice (server/storage.ts:461-462), so the two can differ by a millisecond. The seeded reviews of the constructor likewise share one reading, where the source reads the clock again for each sample (server/storage.ts:374-376).
- `Auth.Registered`: one clock reading stands for both the id (`Date.now()`) and `createdAt` (`new Date()`). The source reads the clock twice (client/src/lib/auth.ts:81, 85).
- Strings are sequences of Unicode scalar values, while JavaScript's `length`, indices and `slice` count UTF-16 code units. The two agree for text inside the Basic Multilingual Plane.
- `SearchAnalytics.Terms`: the `length > 2` test counts Unicode scalars. The source counts code units, so it keeps a term such as two emoji (length 4) that the model drops.
- `FuseSearch.HighlightMatches`: the match offsets index Unicode scalars. Fuse.js reports UTF-16 code-unit offsets, so for text outside the Basic Multilingual Plane the marked positions differ.
- `JsBuiltins.ToLower`: lower-cases ASCII letters only. Unicode case mapping is not modelled.
- `Home.Order`: compares titles by code unit, where the source calls `localeCompare`. The locale's collation is not modelled.
- `Storage.SortedStrings`: compares Unicode scalar values, not UTF-16 code units. The two orders differ only for characters outside the Basic Multilingual Plane.
- `Auth.HasPermission`: treats any role outside the table as having no permissions. A stored role that names an `Object.prototype` member, such as "constructor", makes the source throw instead.
- JSON parsing of localStorage: text that does not parse is the `Corrupt` case. Text that parses to a value of the wrong shape is not modelled, nor is the loss of `Date` objects through `JSON.stringify`.
- Numbers are integers. NaN, fractional reading times and counts beyond 2^53 are not modelled.
- Timers: the one-second debounce of the analytics provider (client/src/components/search-analytics.tsx:106-110) and the simulated delays of login and register (client/src/lib/auth.ts:43, 77). `SearchSettled` stands for a search that stayed unchanged for the whole delay.
- The memo's dependencies are compared by identity. While the reviews load, `allReviews` defaults to a fresh `[]` on every render (client/src/pages/home.tsx:28), so a page change then also recomputes the memo. The model recomputes only on a load, a filter change and a sort change. With no reviews and an index that only a load can change, the recomputation gives the list already shown.
- React rendering, the mobile menu, the loading and error states of data fetching, and the `useAuthState` hook (client/src/lib/auth.ts:144-162): presentation and React plumbing.
- Asynchrony: `MemStorage` methods return promises in the source. They are modelled as synchronous steps, since nothing interleaves inside them.

## Findings

| source | as written | input that shows it | evidently intended | confidence | as-written member | corrected member |
|---|---|---|---|---|---|---|
| client/src/components/sidebar-filters.tsx:58 | `hasActiveFilters` is the truthiness of the raw selection, so the "all" that "Clear All" puts in domain and year (lines 50-56) counts as active | press "Clear All": query "", domain "all", year "all", no tags, no reading time | the panel is active only when a filter is emitted, reading "all" as no choice, as components/search-filters.tsx:80 does | high, not executed | Sidebar.ClearAllStaysShown | Sidebar.ActiveIffFiltering |
