/** The records the site passes around: a review as the repository returns it, and
    the filter selection the filter panels emit. */
module Reviews {
  import opened JsBuiltins

  /** A JavaScript Date reduced to what the site reads from it: the timestamp in
      milliseconds (getTime) and the calendar year in the browser's time zone
      (getFullYear), which the environment supplies. */
  datatype Instant = Instant(millis: int, year: int)

  /** A review. `published` is the database's integer flag: 1 means published.
      `impactMetrics` is a JSON object, kept as a map from key to its JSON text. */
  datatype Review = Review(
    id: int,
    nid: string,
    title: string,
    slug: string,
    reviewSummary: string,
    content: string,
    authors: seq<string>,
    doi: string,
    domain: string,
    tags: seq<string>,
    version: string,
    lastUpdated: Instant,
    wordCount: int,
    estimatedReadingTime: int,
    reviewAuthor: Option<string>,
    impactMetrics: Option<map<string, string>>,
    reuseLicense: Option<string>,
    sourceAttribution: Option<string>,
    published: int,
    createdAt: Instant)

  /** SearchFilters together with the free-text query: the object the filter panels
      hand to the home page. `None` is an absent (undefined) field. */
  datatype Filters = Filters(
    query: string,
    domain: Option<string>,
    year: Option<string>,
    tags: Option<seq<string>>,
    readingTime: Option<string>)

  /** The filters with nothing selected and an empty query. */
  const NoFilters := Filters("", None, None, None, None)
}
