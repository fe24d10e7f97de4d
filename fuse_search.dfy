/** The fuzzy-search service of the home page (client/src/lib/fuse-search.ts): a holder
    for a Fuse index, a guard around its search, and the highlighter that wraps matched
    ranges of a string in <mark> tags. Fuse itself (its scoring, threshold and field
    weights) is a foreign library: its answer is the `engine` parameter. */
module FuseSearch {
  import opened JsBuiltins
  import opened Reviews
  import opened Sorting

  /** A matched range of one field, both ends inclusive, as Fuse reports it. */
  datatype Range = Range(start: int, end: int)

  /** The match metadata of one field: the field name and the ranges matched in it. */
  datatype FuseMatch = FuseMatch(key: string, indices: seq<Range>)

  /** One hit: the review and the per-field match metadata (the score is not used). */
  datatype FuseResult = FuseResult(item: Review, matches: seq<FuseMatch>)

  /** What Fuse answers for a query against an index built from a list of reviews. */
  type Engine = (seq<Review>, string) -> seq<FuseResult>

  class FuseSearchService {
    /** The Fuse instance, reduced to the list it was built from; None before initialize. */
    var index: Option<seq<Review>>

    constructor ()
      ensures index == None
    {
      index := None;
    }

    /** Builds a new index; whatever was indexed before is gone. */
    method Initialize(reviews: seq<Review>)
      modifies this
      ensures index == Some(reviews)
    {
      index := Some(reviews);
    }

    /** No index, or a query that is empty after trimming: no results. Otherwise Fuse's
        answer for the indexed list. */
    function Search(query: string, engine: Engine): (results: seq<FuseResult>)
      reads this
      ensures index.None? ==> results == []
      ensures AllSpace(query) ==> results == []
      ensures index.Some? && !AllSpace(query) ==> results == engine(index.value, query)
    {
      TrimEmptyIffBlank(query);
      if index.None? || Trim(query) == "" then [] else engine(index.value, query)
    }
  }

  /** Initializing twice with the same list, or once, answers every query alike:
      nothing of an earlier index survives. */
  method ReinitializeForgetsOldIndex(earlier: seq<Review>, reviews: seq<Review>, query: string, engine: Engine)
    returns (first: seq<FuseResult>, second: seq<FuseResult>)
    ensures first == second
    ensures !AllSpace(query) ==> first == engine(reviews, query)
  {
    var used := new FuseSearchService();
    used.Initialize(earlier);
    used.Initialize(reviews);
    var unused := new FuseSearchService();
    unused.Initialize(reviews);
    first := used.Search(query, engine);
    second := unused.Search(query, engine);
  }

  // ---------------------------------------------------------------- highlighting

  const MarkOpen: string := "<mark class=\"bg-yellow-200 px-1 rounded\">"
  const MarkClose: string := "</mark>"

  /** Only title and summary matches are highlighted. */
  predicate Relevant(m: FuseMatch) {
    m.key == "title" || m.key == "reviewSummary"
  }

  function RelevantMatches(matches: seq<FuseMatch>): seq<FuseMatch> {
    Filter(matches, (m: FuseMatch) => Relevant(m))
  }

  /** flatMap(match => match.indices) */
  function FlatIndices(matches: seq<FuseMatch>): seq<Range> {
    if matches == [] then [] else matches[0].indices + FlatIndices(matches[1..])
  }

  /** The comparator (a, b) => b[0] - a[0]: a later start comes first. */
  function StartsLater(): (Range, Range) -> bool {
    (a: Range, b: Range) => a.start > b.start
  }

  lemma StartsLaterIsStrictWeakOrder()
    ensures StrictWeakOrder(StartsLater())
  {
  }

  /** The ranges the highlighter applies, in the order it applies them. */
  function HighlightRanges(matches: seq<FuseMatch>): seq<Range> {
    Sort(FlatIndices(RelevantMatches(matches)), StartsLater())
  }

  /** One step of the forEach: the text before the range, the range wrapped in the
      marker, and the rest, all cut with String.prototype.slice. */
  function Wrap(text: string, r: Range): string {
    Enclose(Slice(text, 0, r.start), Slice(text, r.start, r.end + 1), Slice(text, r.end + 1, |text|))
  }

  /** `inside` in the marker, between `before` and `after`. */
  function Enclose(before: string, inside: string, after: string): string {
    before + MarkOpen + inside + MarkClose + after
  }

  /** Applies the ranges one after another, each to the text the previous ones produced. */
  function Apply(text: string, ranges: seq<Range>): string
    decreases |ranges|
  {
    if ranges == [] then text else Apply(Wrap(text, ranges[0]), ranges[1..])
  }

  /** What highlightMatches returns. */
  function Highlighted(text: string, matches: seq<FuseMatch>): string {
    if matches == [] then text
    else if RelevantMatches(matches) == [] then text
    else Apply(text, HighlightRanges(matches))
  }

  method HighlightMatches(text: string, matches: seq<FuseMatch>) returns (highlightedText: string)
    ensures highlightedText == Highlighted(text, matches)
    ensures matches == [] ==> highlightedText == text
    ensures (forall m :: m in matches ==> !Relevant(m)) ==> highlightedText == text
  {
    IrrelevantMatchesKeepText(text, matches);
    if matches == [] {
      return text;
    }
    var relevantMatches := RelevantMatches(matches);
    if relevantMatches == [] {
      return text;
    }
    highlightedText := text;
    var sortedIndices := Sort(FlatIndices(relevantMatches), StartsLater());
    assert sortedIndices[0..] == sortedIndices;
    var i := 0;
    while i < |sortedIndices|
      invariant 0 <= i <= |sortedIndices|
      invariant Apply(highlightedText, sortedIndices[i..]) == Apply(text, sortedIndices)
    {
      ApplyStep(highlightedText, sortedIndices, i);
      highlightedText := Wrap(highlightedText, sortedIndices[i]);
      i := i + 1;
    }
    assert sortedIndices[i..] == [];
  }

  /** Wrapping the next range is one step of Apply. */
  lemma ApplyStep(text: string, ranges: seq<Range>, i: int)
    requires 0 <= i < |ranges|
    ensures Apply(Wrap(text, ranges[i]), ranges[i + 1..]) == Apply(text, ranges[i..])
  {
    assert ranges[i..][1..] == ranges[i + 1..];
  }

  /** Matches on fields other than the title and the summary change nothing. */
  lemma IrrelevantMatchesKeepText(text: string, matches: seq<FuseMatch>)
    ensures (forall m :: m in matches ==> !Relevant(m)) ==> Highlighted(text, matches) == text
  {
    var relevant := RelevantMatches(matches);
    assert relevant != [] ==> relevant[0] in relevant;
  }

  /** The ranges are applied in descending order of their start. */
  lemma HighlightRangesDescend(matches: seq<FuseMatch>)
    ensures multiset(HighlightRanges(matches)) == multiset(FlatIndices(RelevantMatches(matches)))
    ensures forall i, j :: 0 <= i < j < |HighlightRanges(matches)| ==>
              HighlightRanges(matches)[i].start >= HighlightRanges(matches)[j].start
  {
    SortSorted(FlatIndices(RelevantMatches(matches)), StartsLater());
  }

  /** One range inside the text: the matched characters are wrapped, nothing else moves.
      The key may be either highlighted field, whichever text is passed in. */
  lemma HighlightOneRange(text: string, key: string, s: int, e: int)
    requires key == "title" || key == "reviewSummary"
    requires 0 <= s <= e < |text|
    ensures Highlighted(text, [FuseMatch(key, [Range(s, e)])])
         == text[..s] + MarkOpen + text[s..e + 1] + MarkClose + text[e + 1..]
  {
    var m := FuseMatch(key, [Range(s, e)]);
    assert RelevantMatches([m]) == [m];
    assert FlatIndices([m]) == [Range(s, e)] + FlatIndices([]);
    assert HighlightRanges([m]) == Insert(Range(s, e), [], StartsLater()) == [Range(s, e)];
    assert Apply(text, [Range(s, e)]) == Wrap(text, Range(s, e));
  }

  // The marked-up text as a sequence of pieces, to say what survives.

  datatype Piece = Plain(text: string) | Marked(text: string)

  /** The pieces as markup: marked pieces inside the marker. */
  function Render(pieces: seq<Piece>): string {
    if pieces == [] then "" else Markup(pieces[0]) + Render(pieces[1..])
  }

  function Markup(p: Piece): string {
    if p.Marked? then MarkOpen + p.text + MarkClose else p.text
  }

  /** The pieces with the markers stripped. */
  function Unmarked(pieces: seq<Piece>): string {
    if pieces == [] then "" else pieces[0].text + Unmarked(pieces[1..])
  }

  lemma {:induction false} RenderAppend(a: seq<Piece>, b: seq<Piece>)
    ensures Render(a + b) == Render(a) + Render(b)
  {
    if a == [] {
      assert a + b == b;
    } else {
      var p, t := a[0], a[1..];
      assert a == [p] + t;
      assert a + b == [p] + (t + b);
      calc {
        Render(a + b);
        Render([p] + (t + b));
        { RenderCons(p, t + b); }
        Markup(p) + Render(t + b);
        { RenderAppend(t, b); }
        Markup(p) + (Render(t) + Render(b));
        (Markup(p) + Render(t)) + Render(b);
        { RenderCons(p, t); }
        Render([p] + t) + Render(b);
      }
    }
  }

  lemma RenderCons(p: Piece, rest: seq<Piece>)
    ensures Render([p] + rest) == Markup(p) + Render(rest)
  {
    assert ([p] + rest)[1..] == rest;
  }

  lemma UnmarkedCons(p: Piece, rest: seq<Piece>)
    ensures Unmarked([p] + rest) == p.text + Unmarked(rest)
  {
    assert ([p] + rest)[1..] == rest;
  }

  lemma {:induction false} UnmarkedAppend(a: seq<Piece>, b: seq<Piece>)
    ensures Unmarked(a + b) == Unmarked(a) + Unmarked(b)
  {
    if a == [] {
      assert a + b == b;
    } else {
      var p, t := a[0], a[1..];
      assert a == [p] + t;
      assert a + b == [p] + (t + b);
      UnmarkedCons(p, t + b);
      UnmarkedAppend(t, b);
      UnmarkedCons(p, t);
    }
  }

  /** Ranges inside 0..bound, each one ending before the previous one starts. */
  predicate Descending(ranges: seq<Range>, bound: int) {
    ranges == [] ||
    (0 <= ranges[0].start <= ranges[0].end < bound && Descending(ranges[1..], ranges[0].start))
  }

  /** The text cut at the ranges: plain, marked, plain, ..., marked, plain. */
  function Pieces(text: string, ranges: seq<Range>): seq<Piece>
    requires Descending(ranges, |text|)
    decreases |ranges|
  {
    if ranges == [] then [Plain(text)]
    else
      var r := ranges[0];
      Pieces(text[..r.start], ranges[1..]) + [Marked(text[r.start..r.end + 1]), Plain(text[r.end + 1..])]
  }

  /** Stripping the markers gives back the text. */
  lemma {:induction false} PiecesUnmarked(text: string, ranges: seq<Range>)
    requires Descending(ranges, |text|)
    ensures Unmarked(Pieces(text, ranges)) == text
    decreases |ranges|
  {
    if ranges != [] {
      var r := ranges[0];
      var before, x, y := text[..r.start], text[r.start..r.end + 1], text[r.end + 1..];
      var front := Pieces(before, ranges[1..]);
      assert Pieces(text, ranges) == front + [Marked(x), Plain(y)];
      PiecesUnmarked(before, ranges[1..]);
      UnmarkedAppend(front, [Marked(x), Plain(y)]);
      UnmarkedPair(x, y);
      assert text == before + x + y;
    }
  }

  lemma UnmarkedPair(x: string, y: string)
    ensures Unmarked([Marked(x), Plain(y)]) == x + y
  {
    assert [Plain(y)] + [] == [Plain(y)];
    UnmarkedCons(Plain(y), []);
    assert [Marked(x)] + [Plain(y)] == [Marked(x), Plain(y)];
    UnmarkedCons(Marked(x), [Plain(y)]);
  }

  lemma WrapAppend(u: string, v: string, r: Range)
    requires 0 <= r.start <= r.end < |u|
    ensures Wrap(u + v, r) == Wrap(u, r) + v
  {
    var w := u + v;
    var before, inside, after := u[..r.start], u[r.start..r.end + 1], u[r.end + 1..];
    WrapInRange(w, r);
    WrapInRange(u, r);
    assert w[..r.start] == before;
    assert w[r.start..r.end + 1] == inside;
    assert w[r.end + 1..] == after + v;
    EncloseAppend(before, inside, after, v);
  }

  /** For a range inside the text, the three slices are plain sub-sequences. */
  lemma WrapInRange(text: string, r: Range)
    requires 0 <= r.start <= r.end < |text|
    ensures Wrap(text, r) == Enclose(text[..r.start], text[r.start..r.end + 1], text[r.end + 1..])
  {
    assert Slice(text, 0, r.start) == text[..r.start];
    assert Slice(text, r.start, r.end + 1) == text[r.start..r.end + 1];
    assert Slice(text, r.end + 1, |text|) == text[r.end + 1..];
  }

  lemma EncloseAppend(before: string, inside: string, after: string, v: string)
    ensures Enclose(before, inside, after + v) == Enclose(before, inside, after) + v
  {
  }

  /** Ranges that lie inside `u` leave whatever follows `u` alone. */
  lemma {:induction false} ApplyAppend(u: string, v: string, ranges: seq<Range>)
    requires Descending(ranges, |u|)
    ensures Apply(u + v, ranges) == Apply(u, ranges) + v
    decreases |ranges|
  {
    if ranges != [] {
      var r := ranges[0];
      WrapAppend(u, v, r);
      assert |Wrap(u, r)| >= r.start;
      ApplyAppend(Wrap(u, r), v, ranges[1..]);
    }
  }

  /** Applying descending, non-overlapping ranges renders the pieces. */
  lemma {:induction false} ApplyRendersPieces(text: string, ranges: seq<Range>)
    requires Descending(ranges, |text|)
    ensures Apply(text, ranges) == Render(Pieces(text, ranges))
    decreases |ranges|
  {
    if ranges != [] {
      var r := ranges[0];
      var before := text[..r.start];
      var tail := WrapTail(text, r);
      WrapSplits(text, r);
      ApplyAppend(before, tail, ranges[1..]);
      ApplyRendersPieces(before, ranges[1..]);
      var last := [Marked(text[r.start..r.end + 1]), Plain(text[r.end + 1..])];
      RenderAppend(Pieces(before, ranges[1..]), last);
      RenderLast(text, r);
    }
  }

  function WrapTail(text: string, r: Range): string
    requires 0 <= r.start <= r.end < |text|
  {
    MarkOpen + text[r.start..r.end + 1] + MarkClose + text[r.end + 1..]
  }

  lemma WrapSplits(text: string, r: Range)
    requires 0 <= r.start <= r.end < |text|
    ensures Wrap(text, r) == text[..r.start] + WrapTail(text, r)
  {
  }

  lemma RenderLast(text: string, r: Range)
    requires 0 <= r.start <= r.end < |text|
    ensures Render([Marked(text[r.start..r.end + 1]), Plain(text[r.end + 1..])]) == WrapTail(text, r)
  {
    var x, y := text[r.start..r.end + 1], text[r.end + 1..];
    var marked, plain := Marked(x), Plain(y);
    assert [plain] + [] == [plain];
    RenderCons(plain, []);
    assert Render([plain]) == y;
    RenderCons(marked, [plain]);
    assert [marked, plain] == [marked] + [plain];
    assert Render([marked, plain]) == Markup(marked) + y;
    assert Markup(marked) == MarkOpen + x + MarkClose;
  }

  predicate Disjoint(a: Range, b: Range) {
    a.end < b.start || b.end < a.start
  }

  lemma {:induction false} SortedDisjointDescend(ranges: seq<Range>, bound: int)
    requires Sorted(ranges, StartsLater())
    requires forall i :: 0 <= i < |ranges| ==> 0 <= ranges[i].start <= ranges[i].end < bound
    requires forall i, j :: 0 <= i < j < |ranges| ==> Disjoint(ranges[i], ranges[j])
    ensures Descending(ranges, bound)
  {
    if ranges != [] {
      var rest := ranges[1..];
      forall i | 0 <= i < |rest| ensures 0 <= rest[i].start <= rest[i].end < ranges[0].start {
        assert rest[i] == ranges[i + 1];
        assert !(ranges[i + 1].start > ranges[0].start);
        assert Disjoint(ranges[0], ranges[i + 1]);
      }
      assert Sorted(rest, StartsLater()) by {
        forall i, j | 0 <= i < j < |rest| ensures !StartsLater()(rest[j], rest[i]) {
          assert rest[i] == ranges[i + 1] && rest[j] == ranges[j + 1];
        }
      }
      forall i, j | 0 <= i < j < |rest| ensures Disjoint(rest[i], rest[j]) {
        assert rest[i] == ranges[i + 1] && rest[j] == ranges[j + 1];
      }
      SortedDisjointDescend(rest, ranges[0].start);
    }
  }

  /** For ranges that lie inside the text, do not overlap and are not repeated, the
      output is the text cut into pieces with the matched pieces inside the marker:
      every unmatched character survives, verbatim and in order, and removing the
      markers gives back the text. */
  lemma HighlightPreservesText(text: string, matches: seq<FuseMatch>)
    requires RelevantMatches(matches) != []
    requires forall r :: r in FlatIndices(RelevantMatches(matches)) ==> 0 <= r.start <= r.end < |text|
    requires forall a, b ::
               a in FlatIndices(RelevantMatches(matches)) && b in FlatIndices(RelevantMatches(matches)) && a != b
               ==> Disjoint(a, b)
    requires forall r :: multiset(FlatIndices(RelevantMatches(matches)))[r] <= 1
    ensures Descending(HighlightRanges(matches), |text|)
    ensures Highlighted(text, matches) == Render(Pieces(text, HighlightRanges(matches)))
    ensures Unmarked(Pieces(text, HighlightRanges(matches))) == text
  {
    var flat := FlatIndices(RelevantMatches(matches));
    var sorted := HighlightRanges(matches);
    SortSorted(flat, StartsLater());
    PermutedRangesDisjoint(flat, sorted, |text|);
    SortedDisjointDescend(sorted, |text|);
    ApplyRendersPieces(text, sorted);
    PiecesUnmarked(text, sorted);
  }

  /** Being inside the text, non-overlapping and unrepeated survives a reordering. */
  lemma PermutedRangesDisjoint(flat: seq<Range>, sorted: seq<Range>, bound: int)
    requires multiset(sorted) == multiset(flat)
    requires forall r :: r in flat ==> 0 <= r.start <= r.end < bound
    requires forall a, b :: a in flat && b in flat && a != b ==> Disjoint(a, b)
    requires forall r :: multiset(flat)[r] <= 1
    ensures forall i :: 0 <= i < |sorted| ==> 0 <= sorted[i].start <= sorted[i].end < bound
    ensures forall i, j :: 0 <= i < j < |sorted| ==> Disjoint(sorted[i], sorted[j])
  {
    forall i | 0 <= i < |sorted| ensures sorted[i] in flat {
      assert sorted[i] in multiset(sorted);
    }
    forall i, j | 0 <= i < j < |sorted| ensures Disjoint(sorted[i], sorted[j]) {
      assert sorted[i] in flat && sorted[j] in flat;
      if sorted[i] == sorted[j] {
        RepeatCounted(sorted, i, j);
      }
    }
  }
}
