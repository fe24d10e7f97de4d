/** The search log of the site (client/src/components/search-analytics.tsx): a list of
    recent searches kept in the browser's localStorage, newest first and capped at a
    hundred, and the statistics read back from it. The storage slot is a field; what
    localStorage cannot promise (a failed write, text that does not parse) is an input. */
module SearchAnalytics {
  import opened JsBuiltins
  import opened Reviews
  import opened Sorting

  const MaxStoredSearches: nat := 100

  /** The limit getPopularSearchTerms uses when called without one. */
  const DefaultPopularLimit: nat := 10

  /** One logged search. `filters` is the filter object the home page passed in,
      query included; `timestamp` is Date.now() at logging time. */
  datatype Event = Event(query: string, filters: Filters, resultsCount: int, timestamp: int)

  /** What localStorage holds under the analytics key: nothing (or an empty string),
      text that JSON.parse rejects, or a stored list. */
  datatype Stored = Missing | Corrupt | Saved(history: seq<Event>)

  /** One row of getPopularSearchTerms. */
  datatype TermCount = TermCount(term: string, count: int)

  /** getFilterUsage's counters. */
  datatype Usage = Usage(domain: nat, year: nat, tags: nat, readingTime: nat, total: nat)

  /** history.unshift(entry) followed by slice(0, MAX_STORED_SEARCHES). */
  function Prepend(entry: Event, history: seq<Event>): (r: seq<Event>)
    ensures |r| == if |history| + 1 < MaxStoredSearches then |history| + 1 else MaxStoredSearches
    ensures r[0] == entry
    ensures r[1..] == history[..|r| - 1]
  {
    Slice([entry] + history, 0, MaxStoredSearches)
  }

  /** The stored list after logging `events` one by one into an empty slot. */
  function LogAll(events: seq<Event>): seq<Event> {
    if events == [] then [] else Prepend(events[|events| - 1], LogAll(events[..|events| - 1]))
  }

  function Reverse<T>(s: seq<T>): (r: seq<T>)
    ensures |r| == |s|
    ensures forall i :: 0 <= i < |s| ==> r[i] == s[|s| - 1 - i]
  {
    if s == [] then [] else [s[|s| - 1]] + Reverse(s[..|s| - 1])
  }

  /** The log keeps the hundred most recent searches, newest first; the oldest go first. */
  lemma {:induction false} LogKeepsNewest(events: seq<Event>)
    ensures var n := if |events| < MaxStoredSearches then |events| else MaxStoredSearches;
            LogAll(events) == Reverse(events)[..n]
  {
    if events != [] {
      var init := events[..|events| - 1];
      LogKeepsNewest(init);
      var r := LogAll(events);
      var n := if |events| < MaxStoredSearches then |events| else MaxStoredSearches;
      forall i | 0 <= i < n ensures r[i] == Reverse(events)[i] {
        if i > 0 {
          assert r[i] == r[1..][i - 1];
        }
      }
    }
  }

  /** A search worth logging: a non-empty query, or some truthy filter value. The query
      is tested before trimming, and a tag list counts even when it is empty. */
  predicate IsMeaningful(f: Filters) {
    |f.query| > 0 || Truthy(f.domain) || Truthy(f.year) || f.tags.Some? || Truthy(f.readingTime)
  }

  // ---------------------------------------------------------------- popular terms

  /** search.query.toLowerCase().split(/\s+/).filter(term => term.length > 2) */
  function Terms(query: string): (r: seq<string>)
    ensures forall t :: t in r ==> |t| > 2 && IsLower(t) && NoSpace(t)
  {
    Filter(SplitSpaces(ToLower(query)), (w: string) => |w| > 2)
  }

  /** The terms of every search with a non-empty query, oldest first in the list. */
  function AllTerms(history: seq<Event>): (r: seq<string>)
    ensures forall t :: t in r ==> |t| > 2 && IsLower(t)
  {
    if history == [] then []
    else
      var last := history[|history| - 1];
      AllTerms(history[..|history| - 1]) + (if last.query != "" then Terms(last.query) else [])
  }

  /** Reading one more search adds its terms at the end. */
  lemma AllTermsStep(history: seq<Event>, i: int)
    requires 0 <= i < |history|
    ensures AllTerms(history[..i + 1]) ==
              AllTerms(history[..i]) + (if history[i].query != "" then Terms(history[i].query) else [])
  {
    assert history[..i + 1][..i] == history[..i];
  }

  /** The elements of `s` without repeats, in order of first appearance: the key order
      of a JavaScript Map. */
  function Distinct(s: seq<string>): (r: seq<string>)
    ensures forall x :: x in r <==> x in s
  {
    if s == [] then []
    else
      var d := Distinct(s[..|s| - 1]);
      if s[|s| - 1] in d then d else d + [s[|s| - 1]]
  }

  /** No element is kept twice. */
  lemma {:induction false} DistinctNoRepeats(s: seq<string>)
    ensures forall i, j :: 0 <= i < j < |Distinct(s)| ==> Distinct(s)[i] != Distinct(s)[j]
  {
    if s != [] {
      DistinctNoRepeats(s[..|s| - 1]);
    }
  }

  /** Each distinct term with the number of times it occurs. */
  function Tally(order: seq<string>, terms: seq<string>): (r: seq<TermCount>)
    ensures |r| == |order|
    ensures forall k :: 0 <= k < |order| ==> r[k] == TermCount(order[k], multiset(terms)[order[k]])
  {
    seq(|order|, k requires 0 <= k < |order| => TermCount(order[k], multiset(terms)[order[k]]))
  }

  /** The comparator (a, b) => b.count - a.count. */
  function MoreFrequent(): (TermCount, TermCount) -> bool {
    (a: TermCount, b: TermCount) => b.count - a.count < 0
  }

  /** getPopularSearchTerms, stated on the terms of the history. */
  function PopularTerms(history: seq<Event>, limit: int): seq<TermCount> {
    var terms := AllTerms(history);
    Slice(Sort(Tally(Distinct(terms), terms), MoreFrequent()), 0, limit)
  }

  /** The popular terms: at most `limit` of them, each a distinct lower-case term of
      three or more characters with its true number of occurrences, most frequent
      first. */
  lemma PopularTermsSpec(history: seq<Event>, limit: int)
    ensures var r := PopularTerms(history, limit);
            && (limit >= 0 ==> |r| <= limit)
            && (forall i, j :: 0 <= i < j < |r| ==> r[i].count >= r[j].count)
            && (forall i, j :: 0 <= i < j < |r| ==> r[i].term != r[j].term)
            && (forall e :: e in r ==>
                  |e.term| > 2 && IsLower(e.term) && e.count == multiset(AllTerms(history))[e.term] &&
                  e.count > 0)
  {
    var terms := AllTerms(history);
    var tally := Tally(Distinct(terms), terms);
    TallyRows(terms);
    TopRows(tally, limit);
  }

  /** Every row of the tally is a term of the history with its number of occurrences. */
  lemma TallyRows(terms: seq<string>)
    requires forall t :: t in terms ==> |t| > 2 && IsLower(t)
    ensures forall e :: e in Tally(Distinct(terms), terms) ==>
              |e.term| > 2 && IsLower(e.term) && e.count == multiset(terms)[e.term] && e.count > 0
    ensures forall a, b :: 0 <= a < b < |Tally(Distinct(terms), terms)| ==>
              Tally(Distinct(terms), terms)[a].term != Tally(Distinct(terms), terms)[b].term
  {
    var order := Distinct(terms);
    var tally := Tally(order, terms);
    DistinctNoRepeats(terms);
    forall e | e in tally
      ensures |e.term| > 2 && IsLower(e.term) && e.count == multiset(terms)[e.term] && e.count > 0
    {
      var k :| 0 <= k < |tally| && tally[k] == e;
      assert order[k] in terms;
    }
  }

  /** The first `limit` rows of a tally sorted by count: no more than `limit`, most
      frequent first, each from the tally and no term twice. */
  lemma TopRows(tally: seq<TermCount>, limit: int)
    requires forall a, b :: 0 <= a < b < |tally| ==> tally[a].term != tally[b].term
    ensures var r := Slice(Sort(tally, MoreFrequent()), 0, limit);
            && (limit >= 0 ==> |r| <= limit)
            && (forall i, j :: 0 <= i < j < |r| ==> r[i].count >= r[j].count)
            && (forall i, j :: 0 <= i < j < |r| ==> r[i].term != r[j].term)
            && (forall e :: e in r ==> e in tally)
  {
    var sorted := Sort(tally, MoreFrequent());
    var r := Slice(sorted, 0, limit);
    SortedFront(sorted, limit);
    SortSorted(tally, MoreFrequent());
    forall e | e in r ensures e in tally {
      assert e in multiset(sorted);
    }
    forall i, j | 0 <= i < j < |r| ensures r[i].term != r[j].term {
      DistinctAfterSort(tally, sorted, i, j);
    }
  }

  /** slice(0, limit) takes the front: all of it when `limit` is at least its length. */
  lemma SortedFront<T>(sorted: seq<T>, limit: int)
    ensures var r := Slice(sorted, 0, limit);
            |r| <= |sorted| && r == sorted[..|r|] && (limit >= 0 && |r| < limit ==> |r| == |sorted|)
  {
    var to := RelativeIndex(limit, |sorted|);
    assert to == |Slice(sorted, 0, limit)|;
  }

  /** Top-k: a row that is not shown is outnumbered or matched by every row that is,
      and then the list is full. */
  lemma TopRowsComplete(tally: seq<TermCount>, limit: int, row: TermCount)
    requires row in tally && limit >= 0
    requires forall e :: e in Slice(Sort(tally, MoreFrequent()), 0, limit) ==> e.term != row.term
    ensures |Slice(Sort(tally, MoreFrequent()), 0, limit)| == limit
    ensures forall e :: e in Slice(Sort(tally, MoreFrequent()), 0, limit) ==> e.count >= row.count
  {
    var sorted := Sort(tally, MoreFrequent());
    var r := Slice(sorted, 0, limit);
    SortedFront(sorted, limit);
    SortSorted(tally, MoreFrequent());
    assert row in multiset(sorted);
    var m :| 0 <= m < |sorted| && sorted[m] == row;
    assert m >= |r|;
    forall e | e in r ensures e.count >= row.count {
      var p :| 0 <= p < |r| && r[p] == e;
      assert sorted[p] == e;
    }
  }

  /** Top-k on the history: a term that occurs but is not among the popular ones
      occurs no more often than any of them, and the list is full. */
  lemma PopularTermsComplete(history: seq<Event>, limit: int, t: string)
    requires t in AllTerms(history) && limit >= 0
    requires forall e :: e in PopularTerms(history, limit) ==> e.term != t
    ensures |PopularTerms(history, limit)| == limit
    ensures forall e :: e in PopularTerms(history, limit) ==> e.count >= multiset(AllTerms(history))[t]
  {
    var terms := AllTerms(history);
    var order := Distinct(terms);
    var tally := Tally(order, terms);
    var k :| 0 <= k < |order| && order[k] == t;
    assert tally[k] == TermCount(t, multiset(terms)[t]);
    TopRowsComplete(tally, limit, tally[k]);
  }

  /** The tally has one row per distinct term, and sorting only moves rows. */
  lemma DistinctAfterSort(tally: seq<TermCount>, sorted: seq<TermCount>, i: int, j: int)
    requires forall a, b :: 0 <= a < b < |tally| ==> tally[a].term != tally[b].term
    requires multiset(sorted) == multiset(tally)
    requires 0 <= i < j < |sorted|
    ensures sorted[i].term != sorted[j].term
  {
    assert sorted[i] in multiset(tally) && sorted[j] in multiset(tally);
    var a :| 0 <= a < |tally| && tally[a] == sorted[i];
    var b :| 0 <= b < |tally| && tally[b] == sorted[j];
    TallyOnce(tally, a);
    if a == b {
      RepeatCounted(sorted, i, j);
    }
  }

  lemma {:induction false} TallyOnce(tally: seq<TermCount>, a: int)
    requires forall x, y :: 0 <= x < y < |tally| ==> tally[x].term != tally[y].term
    requires 0 <= a < |tally|
    ensures multiset(tally)[tally[a]] == 1
  {
    var x, pre, post := tally[a], tally[..a], tally[a + 1..];
    assert tally == pre + [x] + post;
    assert x !in pre by {
      forall k | 0 <= k < |pre| ensures pre[k] != x {
        assert pre[k] == tally[k];
      }
    }
    assert x !in post by {
      forall k | 0 <= k < |post| ensures post[k] != x {
        assert post[k] == tally[a + 1 + k];
      }
    }
    assert multiset(tally) == multiset(pre) + multiset{x} + multiset(post);
  }

  lemma MoreFrequentIsStrictWeakOrder()
    ensures StrictWeakOrder(MoreFrequent())
  {
  }

  // ---------------------------------------------------------------- the store

  class AnalyticsStore {
    /** The localStorage slot under the analytics key. */
    var stored: Stored

    constructor (initial: Stored)
      ensures stored == initial
    {
      stored := initial;
    }

    /** getSearchHistory: the stored list; nothing stored or unreadable text reads
        as an empty history. */
    function SearchHistory(): (history: seq<Event>)
      reads this
      ensures stored.Saved? ==> history == stored.history
      ensures !stored.Saved? ==> history == []
    {
      if stored.Saved? then stored.history else []
    }

    /** logSearch: the trimmed query, the filters, the count and the time go in
        front of the stored list, which is cut to a hundred. Unreadable text, or a
        write that localStorage refuses, leaves the slot as it was. */
    method LogSearch(query: string, filters: Filters, resultsCount: int, now: int, writeSucceeds: bool)
      modifies this
      ensures old(stored).Corrupt? || !writeSucceeds ==> stored == old(stored)
      ensures !old(stored).Corrupt? && writeSucceeds ==>
                stored == Saved(Prepend(Event(Trim(query), filters, resultsCount, now), old(SearchHistory())))
    {
      var analytics := Event(Trim(query), filters, resultsCount, now);
      if stored.Corrupt? {
        return;
      }
      var history := if stored.Saved? then stored.history else [];
      var trimmed := Slice([analytics] + history, 0, MaxStoredSearches);
      if writeSucceeds {
        stored := Saved(trimmed);
      }
    }

    /** The provider's effect once the debounce has run: only a meaningful search is
        logged. */
    method SearchSettled(f: Filters, resultsCount: int, now: int, writeSucceeds: bool)
      modifies this
      ensures !IsMeaningful(f) ==> stored == old(stored)
      ensures IsMeaningful(f) && (old(stored).Corrupt? || !writeSucceeds) ==> stored == old(stored)
      ensures IsMeaningful(f) && !old(stored).Corrupt? && writeSucceeds ==>
                stored == Saved(Prepend(Event(Trim(f.query), f, resultsCount, now), old(SearchHistory())))
    {
      if IsMeaningful(f) {
        LogSearch(f.query, f, resultsCount, now, writeSucceeds);
      }
    }

    /** getPopularSearchTerms: counts the terms in a Map, then sorts the entries by
        count, most frequent first, and keeps the first `limit`. */
    method PopularSearchTerms(limit: int) returns (popular: seq<TermCount>)
      ensures popular == PopularTerms(SearchHistory(), limit)
    {
      var history := SearchHistory();
      var termCounts: map<string, int> := map[];
      var order: seq<string> := [];
      ghost var seen: seq<string> := [];
      var i := 0;
      while i < |history|
        invariant 0 <= i <= |history|
        invariant seen == AllTerms(history[..i])
        invariant Counted(termCounts, order, seen)
      {
        var search := history[i];
        AllTermsStep(history, i);
        if search.query != "" {
          var terms := Terms(search.query);
          termCounts, order := CountTerms(termCounts, order, terms, seen);
          seen := seen + terms;
        }
        i := i + 1;
      }
      assert history[..i] == history;
      var entries := Entries(termCounts, order, seen);
      popular := Slice(Sort(entries, MoreFrequent()), 0, limit);
    }
    /** getPopularSearchTerms() with no argument: the ten most frequent terms. */
    method DefaultPopularSearchTerms() returns (popular: seq<TermCount>)
      ensures popular == PopularTerms(SearchHistory(), DefaultPopularLimit)
      ensures |popular| <= DefaultPopularLimit
    {
      popular := PopularSearchTerms(DefaultPopularLimit);
      PopularTermsSpec(SearchHistory(), DefaultPopularLimit);
    }

    /** getFilterUsage: how many logged searches set each filter, and how many there are. */
    method FilterUsage() returns (usage: Usage)
      ensures usage.total == |SearchHistory()|
      ensures usage.domain == CountWhere(SearchHistory(), SetsDomain)
      ensures usage.year == CountWhere(SearchHistory(), SetsYear)
      ensures usage.tags == CountWhere(SearchHistory(), SetsTags)
      ensures usage.readingTime == CountWhere(SearchHistory(), SetsReadingTime)
    {
      var history := SearchHistory();
      usage := Usage(0, 0, 0, 0, |history|);
      var i := 0;
      while i < |history|
        invariant 0 <= i <= |history| && usage.total == |history|
        invariant usage.domain == CountWhere(history[..i], SetsDomain)
        invariant usage.year == CountWhere(history[..i], SetsYear)
        invariant usage.tags == CountWhere(history[..i], SetsTags)
        invariant usage.readingTime == CountWhere(history[..i], SetsReadingTime)
      {
        var search := history[i];
        assert history[..i + 1][..i] == history[..i];
        if Truthy(search.filters.domain) {
          usage := usage.(domain := usage.domain + 1);
        }
        if Truthy(search.filters.year) {
          usage := usage.(year := usage.year + 1);
        }
        if search.filters.tags.Some? && |search.filters.tags.value| > 0 {
          usage := usage.(tags := usage.tags + 1);
        }
        if Truthy(search.filters.readingTime) {
          usage := usage.(readingTime := usage.readingTime + 1);
        }
        i := i + 1;
      }
      assert history[..i] == history;
    }
  }

  /** The Map and its key order after reading `seen`: the keys in order of first
      appearance, each with its number of occurrences. */
  ghost predicate Counted(termCounts: map<string, int>, order: seq<string>, seen: seq<string>) {
    && order == Distinct(seen)
    && (forall t :: t in termCounts <==> t in seen)
    && (forall t :: t in termCounts ==> termCounts[t] == multiset(seen)[t])
  }

  /** terms.forEach(term => ...) */
  method CountTerms(termCounts: map<string, int>, order: seq<string>, terms: seq<string>, ghost seen: seq<string>)
    returns (counts': map<string, int>, order': seq<string>)
    requires Counted(termCounts, order, seen)
    ensures Counted(counts', order', seen + terms)
  {
    counts', order' := termCounts, order;
    ghost var read := seen;
    var j := 0;
    assert seen + terms[..0] == seen;
    while j < |terms|
      invariant 0 <= j <= |terms|
      invariant read == seen + terms[..j]
      invariant Counted(counts', order', read)
    {
      counts', order' := CountTerm(counts', order', terms[j], read);
      SnocSlice(seen, terms, j);
      read := read + [terms[j]];
      j := j + 1;
    }
    assert read == seen + terms by {
      assert terms[..j] == terms;
    }
  }

  lemma SnocSlice(seen: seq<string>, terms: seq<string>, j: int)
    requires 0 <= j < |terms|
    ensures seen + terms[..j + 1] == (seen + terms[..j]) + [terms[j]]
  {
    assert terms[..j + 1] == terms[..j] + [terms[j]];
  }

  /** termCounts.set(term, (termCounts.get(term) || 0) + 1); a new key goes last. */
  method CountTerm(termCounts: map<string, int>, order: seq<string>, term: string, ghost seen: seq<string>)
    returns (counts': map<string, int>, order': seq<string>)
    requires Counted(termCounts, order, seen)
    ensures Counted(counts', order', seen + [term])
  {
    if term in termCounts {
      counts' := termCounts[term := termCounts[term] + 1];
      order' := order;
    } else {
      counts' := termCounts[term := 1];
      order' := order + [term];
    }
    assert (seen + [term])[..|seen|] == seen;
  }

  /** Array.from(termCounts.entries()).map(([term, count]) => ({ term, count })) */
  method Entries(termCounts: map<string, int>, order: seq<string>, ghost seen: seq<string>)
    returns (entries: seq<TermCount>)
    requires Counted(termCounts, order, seen)
    ensures entries == Tally(Distinct(seen), seen)
  {
    entries := [];
    var k := 0;
    while k < |order|
      invariant 0 <= k <= |order| && |entries| == k
      invariant forall m :: 0 <= m < k ==> entries[m] == TermCount(order[m], multiset(seen)[order[m]])
    {
      assert order[k] in seen;
      entries := entries + [TermCount(order[k], termCounts[order[k]])];
      k := k + 1;
    }
  }

  predicate SetsDomain(e: Event) {
    Truthy(e.filters.domain)
  }

  predicate SetsYear(e: Event) {
    Truthy(e.filters.year)
  }

  /** `filters.tags?.length` is truthy: a non-empty tag list. */
  predicate SetsTags(e: Event) {
    e.filters.tags.Some? && |e.filters.tags.value| > 0
  }

  predicate SetsReadingTime(e: Event) {
    Truthy(e.filters.readingTime)
  }

  /** The number of searches in the history for which `keep` holds, counted from the end. */
  function CountWhere(history: seq<Event>, keep: Event -> bool): nat {
    if history == [] then 0
    else CountWhere(history[..|history| - 1], keep) + (if keep(history[|history| - 1]) then 1 else 0)
  }

  /** Each counter is the number of searches that pass the matching filter, so no
      counter exceeds the number of logged searches. */
  lemma {:induction false} CountWhereFilters(history: seq<Event>, keep: Event -> bool)
    ensures CountWhere(history, keep) == |Filter(history, keep)| <= |history|
  {
    if history != [] {
      var init, last := history[..|history| - 1], history[|history| - 1];
      CountWhereFilters(init, keep);
      FilterSnoc(init, last, keep);
      assert history == init + [last];
    }
  }

  lemma {:induction false} FilterSnoc<T>(s: seq<T>, x: T, keep: T -> bool)
    ensures |Filter(s + [x], keep)| == |Filter(s, keep)| + (if keep(x) then 1 else 0)
  {
    if s == [] {
      assert [x][1..] == [];
    } else {
      FilterSnoc(s[1..], x, keep);
      assert (s + [x])[1..] == s[1..] + [x];
    }
  }
}
