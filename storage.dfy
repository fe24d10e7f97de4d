/** The in-memory review repository of the server (server/storage.ts, class
    MemStorage): a Map from id to review and the counter that hands out ids, the
    create / update / delete operations that change them, and the read-only queries
    (lookups, the published list, the text search with its filters, and the sorted
    lists of domains and tags). */
module Storage {
  import opened JsBuiltins
  import opened Reviews
  import opened Sorting

  // ---------------------------------------------------------------- loose input

  /** A value of type `any` as ensureStringArray and a truthiness test see it: an
      array of strings, a string, a falsy value of another type (undefined, null, 0)
      or a truthy value of another type (a number, an object). */
  datatype Loose = Strings(items: seq<string>) | Text(text: string) | Falsy | OtherTruthy

  /** `if (value)` on a Loose value: arrays are always truthy, strings when non-empty. */
  predicate LooseTruthy(v: Loose) {
    match v
    case Strings(_) => true
    case Text(s) => s != ""
    case Falsy => false
    case OtherTruthy => true
  }

  /** ensureStringArray: an array is kept as it is, a string becomes a one-element
      array, anything else the empty array. */
  function EnsureStringArray(v: Loose): (r: seq<string>)
    ensures v.Strings? ==> r == v.items
    ensures v.Text? ==> r == [v.text]
    ensures !v.Strings? && !v.Text? ==> r == []
  {
    match v
    case Strings(items) => items
    case Text(s) => [s]
    case _ => []
  }

  /** Normalising twice changes nothing more: the result is already an array. */
  lemma EnsureStringArrayIdempotent(v: Loose)
    ensures EnsureStringArray(Strings(EnsureStringArray(v))) == EnsureStringArray(v)
    ensures |EnsureStringArray(v)| <= 1 || v.Strings?
  {
  }

  // ---------------------------------------------------------------- `||` defaults

  /** `value || fallback` for an optional string: "" and undefined take the fallback. */
  function OrText(v: Option<string>, fallback: string): string {
    if Truthy(v) then v.value else fallback
  }

  /** `value || null` for an optional string: "" becomes null. */
  function OrNull(v: Option<string>): Option<string> {
    if Truthy(v) then v else None
  }

  /** `value || fallback` for an optional number: 0 and undefined take the fallback. */
  function OrNumber(v: Option<int>, fallback: int): int {
    if v.Some? && v.value != 0 then v.value else fallback
  }

  /** `patch !== undefined ? patch : current`: only an absent field keeps the current
      value; an explicit null (`Some(None)`) replaces it. */
  function IfDefined<T>(v: Option<T>, current: T): T {
    if v.Some? then v.value else current
  }

  // ---------------------------------------------------------------- creating

  /** InsertReview: what createReview receives. Optional fields are `Option`s;
      `authors` and `tags` are whatever the caller sent. */
  datatype InsertReview = InsertReview(
    nid: string,
    title: string,
    slug: string,
    reviewSummary: string,
    content: string,
    authors: Loose,
    doi: string,
    domain: string,
    tags: Loose,
    version: Option<string>,
    wordCount: int,
    estimatedReadingTime: int,
    reviewAuthor: Option<string>,
    impactMetrics: Option<map<string, string>>,
    reuseLicense: Option<string>,
    sourceAttribution: Option<string>,
    published: Option<int>)

  /** The review createReview stores under `id` at time `now`. The version is never
      empty (it defaults to "1.0"), the flag is never 0 (`published || 1` turns an
      explicit 0 into 1), and the optional texts are never the empty string. */
  function Created(id: int, ins: InsertReview, now: Instant): (r: Review)
    ensures r.id == id && r.createdAt == now && r.lastUpdated == now
    ensures r.version != "" && (Truthy(ins.version) ==> r.version == ins.version.value)
    ensures r.published != 0
    ensures ins.published.Some? && ins.published.value != 0 ==> r.published == ins.published.value
    ensures ins.published.None? ==> r.published == 1
    ensures r.reviewAuthor != Some("") && r.reuseLicense != Some("") && r.sourceAttribution != Some("")
    ensures r.authors == EnsureStringArray(ins.authors) && r.tags == EnsureStringArray(ins.tags)
  {
    Review(
      id,
      ins.nid,
      ins.title,
      ins.slug,
      ins.reviewSummary,
      ins.content,
      EnsureStringArray(ins.authors),
      ins.doi,
      ins.domain,
      EnsureStringArray(ins.tags),
      OrText(ins.version, "1.0"),
      now,
      ins.wordCount,
      ins.estimatedReadingTime,
      OrNull(ins.reviewAuthor),
      ins.impactMetrics,
      OrNull(ins.reuseLicense),
      OrNull(ins.sourceAttribution),
      OrNumber(ins.published, 1),
      now)
  }

  // ---------------------------------------------------------------- updating

  /** Partial<InsertReview>: every field may be absent (`None`). The four nullable
      fields may also be an explicit null (`Some(None)`); `authors`/`tags` use
      `Falsy` for absent. */
  datatype ReviewPatch = ReviewPatch(
    nid: Option<string>,
    title: Option<string>,
    slug: Option<string>,
    reviewSummary: Option<string>,
    content: Option<string>,
    authors: Loose,
    doi: Option<string>,
    domain: Option<string>,
    tags: Loose,
    version: Option<string>,
    wordCount: Option<int>,
    estimatedReadingTime: Option<int>,
    reviewAuthor: Option<Option<string>>,
    impactMetrics: Option<Option<map<string, string>>>,
    reuseLicense: Option<Option<string>>,
    sourceAttribution: Option<Option<string>>,
    published: Option<int>)

  /** The patch that sets nothing. */
  const EmptyPatch := ReviewPatch(None, None, None, None, None, Falsy, None, None, Falsy,
                                  None, None, None, None, None, None, None, None)

  /** The review updateReview stores: the `||` fields take the patch only when it is
      truthy (so "" and 0 are ignored), the nullable fields and the flag take it
      whenever it is present (so null clears and 0 unpublishes), and the id and the
      creation time are kept. */
  function Merged(existing: Review, p: ReviewPatch, now: Instant): (r: Review)
    ensures r.id == existing.id && r.createdAt == existing.createdAt && r.lastUpdated == now
    ensures r.title == (if Truthy(p.title) then p.title.value else existing.title)
    ensures r.tags == (if LooseTruthy(p.tags) then EnsureStringArray(p.tags) else existing.tags)
    ensures r.wordCount == (if p.wordCount.Some? && p.wordCount.value != 0 then p.wordCount.value
                            else existing.wordCount)
    ensures r.reviewAuthor == (if p.reviewAuthor.Some? then p.reviewAuthor.value else existing.reviewAuthor)
    ensures r.published == (if p.published.Some? then p.published.value else existing.published)
  {
    Review(
      existing.id,
      OrText(p.nid, existing.nid),
      OrText(p.title, existing.title),
      OrText(p.slug, existing.slug),
      OrText(p.reviewSummary, existing.reviewSummary),
      OrText(p.content, existing.content),
      if LooseTruthy(p.authors) then EnsureStringArray(p.authors) else existing.authors,
      OrText(p.doi, existing.doi),
      OrText(p.domain, existing.domain),
      if LooseTruthy(p.tags) then EnsureStringArray(p.tags) else existing.tags,
      OrText(p.version, existing.version),
      now,
      OrNumber(p.wordCount, existing.wordCount),
      OrNumber(p.estimatedReadingTime, existing.estimatedReadingTime),
      IfDefined(p.reviewAuthor, existing.reviewAuthor),
      IfDefined(p.impactMetrics, existing.impactMetrics),
      IfDefined(p.reuseLicense, existing.reuseLicense),
      IfDefined(p.sourceAttribution, existing.sourceAttribution),
      IfDefined(p.published, existing.published),
      existing.createdAt)
  }

  /** An empty patch only touches the modification time. */
  lemma EmptyPatchTouchesOnly(existing: Review, now: Instant)
    ensures Merged(existing, EmptyPatch, now) == existing.(lastUpdated := now)
  {
  }

  /** Applying the same patch twice is applying it once. */
  lemma MergeIdempotent(existing: Review, p: ReviewPatch, t1: Instant, t2: Instant)
    ensures Merged(Merged(existing, p, t1), p, t2) == Merged(existing, p, t2)
  {
  }

  /** Under `||` an empty text or a zero count is the same as leaving the field out. */
  lemma FalsyUpdatesIgnored(existing: Review, p: ReviewPatch, now: Instant)
    ensures Merged(existing, p.(title := Some(""), wordCount := Some(0)), now)
         == Merged(existing, p.(title := None, wordCount := None), now)
  {
  }

  // ---------------------------------------------------------------- the map

  /** The store's invariant: every key is an id the counter has already handed out,
      and each review carries its own key as its id. */
  ghost predicate Consistent(reviews: map<int, Review>, nextId: int) {
    1 <= nextId && forall id :: id in reviews ==> 1 <= id < nextId && reviews[id].id == id
  }

  /** The ids below `bound` that have a review, ascending. */
  function IdsBelow(reviews: map<int, Review>, bound: int): (r: seq<int>)
    decreases bound
    ensures forall id :: id in r <==> id in reviews && 1 <= id < bound
    ensures forall i, j :: 0 <= i < j < |r| ==> r[i] < r[j]
  {
    if bound <= 1 then []
    else
      var below := IdsBelow(reviews, bound - 1);
      assert forall i :: 0 <= i < |below| ==> below[i] in below;
      below + (if bound - 1 in reviews then [bound - 1] else [])
  }

  /** `Array.from(this.reviews.values())`. A Map yields its values in the order the
      keys were first set; ids come from the counter, are set once and never reused,
      so that order is ascending id. */
  function Values(reviews: map<int, Review>, nextId: int): seq<Review> {
    var ids := IdsBelow(reviews, nextId);
    seq(|ids|, i requires 0 <= i < |ids| => reviews[ids[i]])
  }

  /** The listing holds every stored review, only stored reviews, and in id order. */
  lemma ValuesAreTheMap(reviews: map<int, Review>, nextId: int)
    requires Consistent(reviews, nextId)
    ensures var r := Values(reviews, nextId);
            && (forall id :: id in reviews ==> reviews[id] in r)
            && (forall x :: x in r ==> x.id in reviews && reviews[x.id] == x)
            && (forall i, j :: 0 <= i < j < |r| ==> r[i].id < r[j].id)
  {
    var ids := IdsBelow(reviews, nextId);
    var r := Values(reviews, nextId);
    forall id | id in reviews ensures reviews[id] in r {
      var i :| 0 <= i < |ids| && ids[i] == id;
      assert r[i] == reviews[id];
    }
  }

  /** ValuesAreTheMap for every store, valid or not: a stored review below the
      bound is listed. */
  lemma ValuesListAll(reviews: map<int, Review>, nextId: int)
    ensures Consistent(reviews, nextId) ==> forall id :: id in reviews ==> reviews[id] in Values(reviews, nextId)
  {
    if Consistent(reviews, nextId) {
      ValuesAreTheMap(reviews, nextId);
    }
  }

  // ---------------------------------------------------------------- user accounts

  /** A row of the users table. */
  datatype Account = Account(id: int, username: string, email: string, role: string)

  // ---------------------------------------------------------------- lookups

  predicate Addressed(x: Review, nid: string, slug: string) {
    x.nid == nid && x.slug == slug
  }

  /** The position of the first review with this nid and slug, or |rs| for none. */
  function FirstAddressed(rs: seq<Review>, nid: string, slug: string): (k: nat)
    ensures k <= |rs|
    ensures k < |rs| ==> Addressed(rs[k], nid, slug)
    ensures forall i :: 0 <= i < k ==> !Addressed(rs[i], nid, slug)
  {
    if rs == [] then 0
    else if Addressed(rs[0], nid, slug) then 0
    else 1 + FirstAddressed(rs[1..], nid, slug)
  }

  /** `find(review => review.nid === nid && review.slug === slug)`: the first such
      review in listing order, and undefined only when there is none. The nid column
      is declared unique, but the in-memory store does not enforce it. */
  function FindByNidAndSlug(rs: seq<Review>, nid: string, slug: string): (r: Option<Review>)
    ensures r.Some? ==> r.value in rs && Addressed(r.value, nid, slug)
    ensures r.None? <==> forall x :: x in rs ==> !Addressed(x, nid, slug)
    ensures r.Some? ==> exists k :: 0 <= k < |rs| && rs[k] == r.value &&
                          forall i :: 0 <= i < k ==> !Addressed(rs[i], nid, slug)
  {
    var k := FirstAddressed(rs, nid, slug);
    if k < |rs| then Some(rs[k]) else None
  }

  predicate IsPublished(x: Review) {
    x.published == 1
  }

  /** getPublishedReviews: the reviews whose flag is exactly 1, in order. */
  function Published(rs: seq<Review>): (r: seq<Review>)
    ensures IsSubsequence(r, rs)
    ensures forall x :: x in r <==> x in rs && x.published == 1
  {
    FilterIsSubsequence(rs, IsPublished);
    Filter(rs, IsPublished)
  }

  /** getReviewsByDomain: the published reviews of exactly this domain. */
  function ByDomain(rs: seq<Review>, domain: string): (r: seq<Review>)
    ensures IsSubsequence(r, rs)
    ensures forall x :: x in r <==> x in rs && x.domain == domain && x.published == 1
  {
    var keep := (x: Review) => x.domain == domain && x.published == 1;
    FilterIsSubsequence(rs, keep);
    Filter(rs, keep)
  }

  /** getReviewsByTag: the published reviews carrying exactly this tag. */
  function ByTag(rs: seq<Review>, tag: string): (r: seq<Review>)
    ensures IsSubsequence(r, rs)
    ensures forall x :: x in r <==> x in rs && tag in x.tags && x.published == 1
  {
    var keep := (x: Review) => tag in x.tags && x.published == 1;
    FilterIsSubsequence(rs, keep);
    Filter(rs, keep)
  }

  // ---------------------------------------------------------------- the search

  /** The optional filters of searchReviews; `None` is an absent field. */
  datatype SearchFilters = SearchFilters(domain: Option<string>, year: Option<string>, tags: Option<seq<string>>)

  /** The lower-cased search term occurs in the lower-cased title, summary, content,
      an author, a tag or the domain. */
  predicate Mentions(x: Review, term: string) {
    || Includes(ToLower(x.title), term)
    || Includes(ToLower(x.reviewSummary), term)
    || Includes(ToLower(x.content), term)
    || (exists a :: a in x.authors && Includes(ToLower(a), term))
    || (exists t :: t in x.tags && Includes(ToLower(t), term))
    || Includes(ToLower(x.domain), term)
  }

  predicate TagFilterSet(f: SearchFilters) {
    f.tags.Some? && |f.tags.value| > 0
  }

  /** Everything a review must satisfy to be a search result. */
  predicate SearchHit(query: string, f: SearchFilters, x: Review) {
    && x.published == 1
    && (query != "" ==> Mentions(x, ToLower(query)))
    && (Truthy(f.domain) ==> x.domain == f.domain.value)
    && (Truthy(f.year) ==> IntToString(x.lastUpdated.year) == f.year.value)
    && (TagFilterSet(f) ==> exists t :: t in f.tags.value && t in x.tags)
  }

  /** `if (apply) results = results.filter(keep)` */
  function FilterWhen(s: seq<Review>, apply: bool, keep: Review -> bool): (r: seq<Review>)
    ensures IsSubsequence(r, s)
    ensures forall x :: x in r <==> x in s && (apply ==> keep(x))
  {
    FilterIsSubsequence(s, keep);
    SubsequenceReflexive(s);
    if apply then Filter(s, keep) else s
  }

  /** The text stage: with a non-empty query, the reviews that mention it. */
  function ByText(s: seq<Review>, query: string): (r: seq<Review>)
    ensures IsSubsequence(r, s)
    ensures forall x :: x in r <==> x in s && (query != "" ==> Mentions(x, ToLower(query)))
  {
    var term := ToLower(query);
    FilterWhen(s, query != "", (x: Review) => Mentions(x, term))
  }

  /** The domain stage: with a domain set, the reviews of that domain. */
  function ByDomainFilter(s: seq<Review>, f: SearchFilters): (r: seq<Review>)
    ensures IsSubsequence(r, s)
    ensures forall x :: x in r <==> x in s && (Truthy(f.domain) ==> x.domain == f.domain.value)
  {
    FilterWhen(s, Truthy(f.domain), (x: Review) => Some(x.domain) == f.domain)
  }

  /** The year stage: with a year set, the reviews last updated in that year. */
  function ByYearFilter(s: seq<Review>, f: SearchFilters): (r: seq<Review>)
    ensures IsSubsequence(r, s)
    ensures forall x :: x in r <==> x in s && (Truthy(f.year) ==> IntToString(x.lastUpdated.year) == f.year.value)
  {
    FilterWhen(s, Truthy(f.year), (x: Review) => Some(IntToString(x.lastUpdated.year)) == f.year)
  }

  /** The tag stage: with tags selected, the reviews carrying at least one of them. */
  function ByTagsFilter(s: seq<Review>, f: SearchFilters): (r: seq<Review>)
    ensures IsSubsequence(r, s)
    ensures forall x :: x in r <==> x in s && (TagFilterSet(f) ==> exists t :: t in f.tags.value && t in x.tags)
  {
    FilterWhen(s, TagFilterSet(f), (x: Review) => f.tags.Some? && exists t :: t in f.tags.value && t in x.tags)
  }

  /** searchReviews: the published reviews, narrowed by the text query when it is
      non-empty, then by the domain, the year and the tags when those are set. */
  function Search(rs: seq<Review>, query: string, f: SearchFilters): (r: seq<Review>)
    ensures IsSubsequence(r, rs)
    ensures forall x :: x in r <==> x in rs && SearchHit(query, f, x)
  {
    var published := FilterWhen(rs, true, IsPublished);
    var byText := ByText(published, query);
    var byDomain := ByDomainFilter(byText, f);
    var byYear := ByYearFilter(byDomain, f);
    var byTags := ByTagsFilter(byYear, f);
    SubsequenceTransitive(byText, published, rs);
    SubsequenceTransitive(byDomain, byText, rs);
    SubsequenceTransitive(byYear, byDomain, rs);
    SubsequenceTransitive(byTags, byYear, rs);
    byTags
  }

  /** Lower-casing twice is lower-casing once. */
  lemma ToLowerIdempotent(s: string)
    ensures ToLower(ToLower(s)) == ToLower(s)
  {
  }

  /** The search ignores the case of the query: a lower-cased query finds the same
      reviews, in the same order. */
  lemma SearchIgnoresCase(rs: seq<Review>, query: string, f: SearchFilters)
    ensures Search(rs, ToLower(query), f) == Search(rs, query, f)
  {
    ToLowerIdempotent(query);
    assert (ToLower(query) != "") == (query != "");
  }

  /** Every search result is published. */
  lemma SearchOnlyPublished(rs: seq<Review>, query: string, f: SearchFilters)
    ensures forall x :: x in Search(rs, query, f) ==> x in Published(rs)
  {
  }

  /** getReviewsByDomain is the search with an empty query and only the domain set. */
  lemma ByDomainIsSearch(rs: seq<Review>, domain: string)
    requires domain != ""
    ensures ByDomain(rs, domain) == Search(rs, "", SearchFilters(Some(domain), None, None))
  {
    var f := SearchFilters(Some(domain), None, None);
    var published := Filter(rs, IsPublished);
    var keep := (x: Review) => Some(x.domain) == f.domain;
    FilterThenFilter(rs, IsPublished, keep, (x: Review) => x.domain == domain && x.published == 1);
    assert Search(rs, "", f) == Filter(published, keep);
  }

  /** getReviewsByTag is the search with an empty query and the one tag selected. */
  lemma ByTagIsSearch(rs: seq<Review>, tag: string)
    ensures ByTag(rs, tag) == Search(rs, "", SearchFilters(None, None, Some([tag])))
  {
    var f := SearchFilters(None, None, Some([tag]));
    var published := Filter(rs, IsPublished);
    var keep := (x: Review) => f.tags.Some? && exists t :: t in f.tags.value && t in x.tags;
    FilterThenFilter(rs, IsPublished, keep, (x: Review) => tag in x.tags && x.published == 1);
    assert Search(rs, "", f) == Filter(published, keep);
  }

  // ---------------------------------------------------------------- domains and tags

  predicate NoRepeats(s: seq<string>) {
    forall i, j :: 0 <= i < j < |s| ==> s[i] != s[j]
  }

  /** `set.add(x)` on the Set's contents in insertion order. */
  function SetAdd(s: seq<string>, x: string): (r: seq<string>)
    ensures NoRepeats(s) ==> NoRepeats(r)
    ensures forall y :: y in r <==> y in s || y == x
  {
    if x in s then s else s + [x]
  }

  /** The default comparison of Array.prototype.sort on strings. */
  function CodeUnitOrder(): (string, string) -> bool {
    (a: string, b: string) => StrLess(a, b)
  }

  lemma CodeUnitOrderIsStrictWeakOrder()
    ensures StrictWeakOrder(CodeUnitOrder())
  {
    var less := CodeUnitOrder();
    forall a: string, b: string | less(a, b) ensures !less(b, a) {
      StrLessTotal(a, b);
    }
    forall a: string, b: string, c: string | !less(a, b) && !less(b, c) ensures !less(a, c) {
      StrLessTotal(a, b);
      StrLessTotal(b, c);
      if StrLess(c, b) && StrLess(b, a) {
        StrLessTransitive(c, b, a);
      }
      StrLessTotal(a, c);
    }
  }

  /** A sequence without repeats holds each value at most once. */
  lemma {:induction false} NoRepeatsCountedOnce(s: seq<string>, x: string)
    requires NoRepeats(s)
    ensures multiset(s)[x] <= 1
  {
    if s != [] {
      NoRepeatsCountedOnce(s[1..], x);
      assert s == [s[0]] + s[1..];
      if s[0] == x {
        assert x !in s[1..];
      }
    }
  }

  /** `Array.from(set).sort()`: the same strings, in strictly ascending order. */
  function SortedStrings(s: seq<string>): (r: seq<string>)
    requires NoRepeats(s)
    ensures forall y :: y in r <==> y in s
    ensures forall i, j :: 0 <= i < j < |r| ==> StrLess(r[i], r[j])
  {
    var r := Sort(s, CodeUnitOrder());
    CodeUnitOrderIsStrictWeakOrder();
    SortSorted(s, CodeUnitOrder());
    assert forall y :: y in r <==> y in s by {
      forall y ensures y in r <==> y in s {
        assert y in r <==> y in multiset(r);
      }
    }
    forall i, j | 0 <= i < j < |r| ensures StrLess(r[i], r[j]) {
      NoRepeatsCountedOnce(s, r[i]);
      if r[i] == r[j] {
        RepeatCounted(r, i, j);
      }
      StrLessTotal(r[i], r[j]);
    }
    r
  }

  /** Some published review has domain d. */
  ghost predicate PublishedDomain(rs: seq<Review>, d: string) {
    exists x :: x in rs && x.published == 1 && x.domain == d
  }

  /** Some published review carries tag t. */
  ghost predicate PublishedTag(rs: seq<Review>, t: string) {
    exists x :: x in rs && x.published == 1 && t in x.tags
  }

  /** `items.forEach(x => set.add(x))` */
  method AddEach(s: seq<string>, items: seq<string>) returns (r: seq<string>)
    requires NoRepeats(s)
    ensures NoRepeats(r)
    ensures forall y :: y in r <==> y in s || y in items
  {
    r := s;
    var j := 0;
    while j < |items|
      invariant 0 <= j <= |items|
      invariant NoRepeats(r)
      invariant forall y :: y in r <==> y in s || y in items[..j]
    {
      assert items[..j + 1] == items[..j] + [items[j]];
      r := SetAdd(r, items[j]);
      j := j + 1;
    }
    assert items[..j] == items;
  }

  /** The set of domains of the published reviews, in first-seen order. */
  method CollectDomains(rs: seq<Review>) returns (seen: seq<string>)
    ensures NoRepeats(seen)
    ensures forall d :: d in seen <==> PublishedDomain(rs, d)
  {
    seen := [];
    var i := 0;
    while i < |rs|
      invariant 0 <= i <= |rs|
      invariant NoRepeats(seen)
      invariant forall d :: d in seen <==> PublishedDomain(rs[..i], d)
    {
      assert rs[..i + 1] == rs[..i] + [rs[i]];
      if rs[i].published == 1 {
        seen := SetAdd(seen, rs[i].domain);
      }
      i := i + 1;
    }
    assert rs[..i] == rs;
  }

  /** The set of tags of the published reviews, in first-seen order. */
  method CollectTags(rs: seq<Review>) returns (seen: seq<string>)
    ensures NoRepeats(seen)
    ensures forall t :: t in seen <==> PublishedTag(rs, t)
  {
    seen := [];
    var i := 0;
    while i < |rs|
      invariant 0 <= i <= |rs|
      invariant NoRepeats(seen)
      invariant forall t :: t in seen <==> PublishedTag(rs[..i], t)
    {
      assert rs[..i + 1] == rs[..i] + [rs[i]];
      if rs[i].published == 1 {
        seen := AddEach(seen, rs[i].tags);
      }
      i := i + 1;
    }
    assert rs[..i] == rs;
  }

  // ---------------------------------------------------------------- the store

  /** Seeding the (k+1)-th sample adds exactly the id k + 1. */
  lemma SeedStep(before: map<int, Review>, after: map<int, Review>, samples: seq<InsertReview>, k: int, now: Instant)
    requires 0 <= k < |samples|
    requires forall id :: id in before <==> 1 <= id <= k
    requires forall j :: 0 <= j < k ==> before[j + 1] == Created(j + 1, samples[j], now)
    requires after == before[k + 1 := Created(k + 1, samples[k], now)]
    ensures forall id :: id in after <==> 1 <= id <= k + 1
    ensures forall j :: 0 <= j < k + 1 ==> after[j + 1] == Created(j + 1, samples[j], now)
  {
    forall j | 0 <= j < k + 1
      ensures after[j + 1] == Created(j + 1, samples[j], now)
    {
      if j < k {
        assert after[j + 1] == before[j + 1];
      }
    }
  }

  class MemStorage {
    var reviews: map<int, Review>
    var currentId: int

    ghost predicate Valid()
      reads this
    {
      Consistent(reviews, currentId)
    }

    /** The constructor with its seeding: each sample is created in turn, so the
        samples get the ids 1, 2, 3, ... in order. */
    constructor (samples: seq<InsertReview>, now: Instant)
      ensures Valid()
      ensures currentId == |samples| + 1
      ensures forall id :: id in reviews <==> 1 <= id <= |samples|
      ensures forall k :: 0 <= k < |samples| ==> reviews[k + 1] == Created(k + 1, samples[k], now)
    {
      reviews := map[];
      currentId := 1;
      new;
      var k := 0;
      while k < |samples|
        invariant 0 <= k <= |samples|
        invariant Valid()
        invariant currentId == k + 1
        invariant forall id :: id in reviews <==> 1 <= id <= k
        invariant forall j :: 0 <= j < k ==> reviews[j + 1] == Created(j + 1, samples[j], now)
      {
        ghost var before := reviews;
        var created := CreateReview(samples[k], now);
        SeedStep(before, reviews, samples, k, now);
        k := k + 1;
      }
    }

    /** getAllReviews */
    function AllReviews(): seq<Review>
      reads this
    {
      Values(reviews, currentId)
    }

    /** getReviewById: `this.reviews.get(id)`; what it finds carries that id. */
    function GetReviewById(id: int): (r: Option<Review>)
      reads this
      ensures r.Some? <==> id in reviews
      ensures r.Some? && Valid() ==> r.value.id == id && r.value in AllReviews()
    {
      ValuesListAll(reviews, currentId);
      if id in reviews then Some(reviews[id]) else None
    }

    function GetReviewByNidAndSlug(nid: string, slug: string): Option<Review>
      reads this
    {
      FindByNidAndSlug(AllReviews(), nid, slug)
    }

    function GetPublishedReviews(): seq<Review>
      reads this
    {
      Published(AllReviews())
    }

    function SearchReviews(query: string, f: SearchFilters): seq<Review>
      reads this
    {
      Search(AllReviews(), query, f)
    }

    function GetReviewsByDomain(domain: string): seq<Review>
      reads this
    {
      ByDomain(AllReviews(), domain)
    }

    function GetReviewsByTag(tag: string): seq<Review>
      reads this
    {
      ByTag(AllReviews(), tag)
    }

    /** getUser: the in-memory store keeps no accounts, so no id is found. */
    function GetUser(id: int): Option<Account> {
      None
    }

    /** getUserByUsername: likewise never found. */
    function GetUserByUsername(username: string): Option<Account> {
      None
    }

    /** The store holds no accounts: neither lookup ever finds one. */
    lemma NeverFindsAccounts(id: int, username: string)
      ensures GetUser(id) == None && GetUserByUsername(username) == None
    {
    }

    /** createUser: always rejected, with this message, and the store is unchanged. */
    method CreateUser(username: string, email: string, role: string) returns (error: string)
      ensures error == "User creation not supported in MemStorage"
    {
      error := "User creation not supported in MemStorage";
    }

    /** createReview: the review takes the counter's value as its id (an id no
        stored review has), the counter moves on by one, and nothing else changes. */
    method CreateReview(ins: InsertReview, now: Instant) returns (review: Review)
      requires Valid()
      modifies this
      ensures Valid()
      ensures review == Created(old(currentId), ins, now)
      ensures old(currentId) !in old(reviews)
      ensures currentId == old(currentId) + 1
      ensures reviews == old(reviews)[review.id := review]
      ensures GetReviewById(review.id) == Some(review)
    {
      var id := currentId;
      currentId := currentId + 1;
      review := Created(id, ins, now);
      reviews := reviews[id := review];
    }

    /** updateReview: an absent id gives undefined and changes nothing; otherwise the
        merged review replaces the stored one under the same id. */
    method UpdateReview(id: int, p: ReviewPatch, now: Instant) returns (updated: Option<Review>)
      requires Valid()
      modifies this
      ensures Valid()
      ensures currentId == old(currentId)
      ensures id !in old(reviews) ==> updated == None && reviews == old(reviews)
      ensures id in old(reviews) ==>
                updated == Some(Merged(old(reviews)[id], p, now)) && reviews == old(reviews)[id := updated.value]
    {
      if id !in reviews {
        return None;
      }
      var merged := Merged(reviews[id], p, now);
      reviews := reviews[id := merged];
      updated := Some(merged);
    }

    /** deleteReview: true exactly when the id was present; afterwards it is not. */
    method DeleteReview(id: int) returns (deleted: bool)
      requires Valid()
      modifies this
      ensures Valid()
      ensures deleted == (id in old(reviews))
      ensures reviews == old(reviews) - {id} && currentId == old(currentId)
      ensures GetReviewById(id) == None
    {
      deleted := id in reviews;
      reviews := reviews - {id};
    }

    /** getAllDomains: each domain of a published review once, in ascending order. */
    method GetAllDomains() returns (domains: seq<string>)
      ensures forall d :: d in domains <==> PublishedDomain(AllReviews(), d)
      ensures forall i, j :: 0 <= i < j < |domains| ==> StrLess(domains[i], domains[j])
    {
      var seen := CollectDomains(AllReviews());
      domains := SortedStrings(seen);
    }

    /** getAllTags: each tag of a published review once, in ascending order. */
    method GetAllTags() returns (tags: seq<string>)
      ensures forall t :: t in tags <==> PublishedTag(AllReviews(), t)
      ensures forall i, j :: 0 <= i < j < |tags| ==> StrLess(tags[i], tags[j])
    {
      var seen := CollectTags(AllReviews());
      tags := SortedStrings(seen);
    }
  }
}
