/** The pagination bar under the review list (components/pagination.tsx): the
    "Showing X to Y" bounds, the page buttons with their ellipses, and whether the
    Previous and Next buttons are enabled. */
module Pagination {
  import opened JsBuiltins

  /** One entry of the button row: a page button or the "..." marker. */
  datatype PageItem = Number(page: int) | Ellipsis

  /** The number of the first item shown on the current page, counting from 1. */
  function StartItem(currentPage: int, itemsPerPage: int): (r: int)
    ensures currentPage >= 1 && itemsPerPage >= 0 ==> r >= 1
    ensures r - 1 == (currentPage - 1) * itemsPerPage
  {
    (currentPage - 1) * itemsPerPage + 1
  }

  /** The number of the last item shown: the end of the page, or of the list if that
      comes first. */
  function EndItem(currentPage: int, itemsPerPage: int, totalItems: int): (r: int)
    ensures r <= totalItems && r <= currentPage * itemsPerPage
    ensures r == totalItems || r == currentPage * itemsPerPage
  {
    if currentPage * itemsPerPage < totalItems then currentPage * itemsPerPage else totalItems
  }

  predicate PreviousDisabled(currentPage: int) {
    currentPage <= 1
  }

  predicate NextDisabled(currentPage: int, totalPages: int) {
    currentPage >= totalPages
  }

  /** From a page in range, an enabled Previous or Next button leads to a page in range,
      and on every page but a single one at least one of them is enabled. */
  lemma NavigationStaysInRange(currentPage: int, totalPages: int)
    requires 1 <= currentPage <= totalPages
    ensures !PreviousDisabled(currentPage) ==> 1 <= currentPage - 1 <= totalPages
    ensures !NextDisabled(currentPage, totalPages) ==> 1 <= currentPage + 1 <= totalPages
    ensures PreviousDisabled(currentPage) && NextDisabled(currentPage, totalPages) <==> totalPages == 1
  {
  }

  /** The first and last page of the middle window: two pages either side of the
      current one, kept clear of the first and the last page. */
  function WindowStart(currentPage: int): int {
    if currentPage - 2 > 2 then currentPage - 2 else 2
  }

  function WindowEnd(currentPage: int, totalPages: int): int {
    if totalPages - 1 < currentPage + 2 then totalPages - 1 else currentPage + 2
  }

  /** The page numbers of a button row, in order. */
  function Pages(items: seq<PageItem>): (r: seq<int>)
    ensures |r| <= |items|
  {
    if items == [] then []
    else (if items[0].Number? then [items[0].page] else []) + Pages(items[1..])
  }

  /** Consecutive buttons are consecutive pages; a "..." stands between two buttons
      whose pages are not consecutive. */
  ghost predicate WellSpaced(items: seq<PageItem>) {
    && (forall i :: 0 <= i < |items| - 1 && items[i].Number? && items[i + 1].Number? ==>
          items[i + 1].page == items[i].page + 1)
    && (forall i :: 0 <= i < |items| && items[i].Ellipsis? ==>
          0 < i < |items| - 1 && items[i - 1].Number? && items[i + 1].Number? &&
          items[i + 1].page > items[i - 1].page + 1)
  }

  /** getVisiblePages: page 1, the window around the current page, and the last page,
      with "..." wherever pages are skipped. */
  method VisiblePages(currentPage: int, totalPages: int) returns (rangeWithDots: seq<PageItem>)
    ensures |rangeWithDots| >= 1 && rangeWithDots[0] == Number(1)
    ensures totalPages > 1 ==> rangeWithDots[|rangeWithDots| - 1] == Number(totalPages)
    ensures totalPages >= 1 ==> forall k ::
              k in Pages(rangeWithDots) <==>
              (k == 1 || (k == totalPages && totalPages > 1) ||
               WindowStart(currentPage) <= k <= WindowEnd(currentPage, totalPages))
    ensures 1 <= currentPage <= totalPages ==> WellSpaced(rangeWithDots)
    ensures 1 <= currentPage <= totalPages ==> currentPage in Pages(rangeWithDots)
    ensures 1 <= currentPage <= totalPages ==> Increasing(Pages(rangeWithDots))
    ensures 1 <= currentPage <= totalPages ==>
              ((|rangeWithDots| > 1 && rangeWithDots[1].Ellipsis?) <==> currentPage - 2 > 2)
    ensures 1 <= currentPage <= totalPages ==>
              (rangeWithDots[|rangeWithDots| - 1].Number? &&
               (|rangeWithDots| > 1 && rangeWithDots[|rangeWithDots| - 2].Ellipsis? <==>
                currentPage + 2 < totalPages - 1))
  {
    var lo, hi := WindowStart(currentPage), WindowEnd(currentPage, totalPages);
    var range: seq<PageItem> := [];
    var i := lo;
    while i <= hi
      invariant lo <= i && (lo <= hi ==> i <= hi + 1) && (lo > hi ==> i == lo)
      invariant |range| == i - lo
      invariant forall k :: 0 <= k < |range| ==> range[k] == Number(lo + k)
    {
      range := range + [Number(i)];
      i := i + 1;
    }
    var lead := if currentPage - 2 > 2 then [Number(1), Ellipsis] else [Number(1)];
    var tail := if currentPage + 2 < totalPages - 1 then [Ellipsis, Number(totalPages)]
                else if totalPages > 1 then [Number(totalPages)] else [];
    rangeWithDots := lead + range + tail;
    RowProperties(lead, range, tail, lo, currentPage, totalPages);
  }

  /** The facts of getVisiblePages about the row it joins from its three parts. */
  lemma RowProperties(lead: seq<PageItem>, range: seq<PageItem>, tail: seq<PageItem>,
                      lo: int, currentPage: int, totalPages: int)
    requires lo == WindowStart(currentPage)
    requires |range| == (if WindowEnd(currentPage, totalPages) < lo then 0
                         else WindowEnd(currentPage, totalPages) - lo + 1)
    requires forall k :: 0 <= k < |range| ==> range[k] == Number(lo + k)
    requires lead == if currentPage - 2 > 2 then [Number(1), Ellipsis] else [Number(1)]
    requires tail == if currentPage + 2 < totalPages - 1 then [Ellipsis, Number(totalPages)]
                     else if totalPages > 1 then [Number(totalPages)] else []
    ensures var s := lead + range + tail;
      && |s| >= 1 && s[0] == Number(1)
      && (totalPages > 1 ==> s[|s| - 1] == Number(totalPages))
      && (totalPages >= 1 ==> forall k ::
            k in Pages(s) <==>
            (k == 1 || (k == totalPages && totalPages > 1) ||
             WindowStart(currentPage) <= k <= WindowEnd(currentPage, totalPages)))
      && (1 <= currentPage <= totalPages ==>
            && WellSpaced(s)
            && currentPage in Pages(s)
            && Increasing(Pages(s))
            && ((|s| > 1 && s[1].Ellipsis?) <==> currentPage - 2 > 2)
            && s[|s| - 1].Number?
            && (|s| > 1 && s[|s| - 2].Ellipsis? <==> currentPage + 2 < totalPages - 1))
  {
    var s := lead + range + tail;
    var hi := WindowEnd(currentPage, totalPages);
    WindowPages(lead, range, tail, lo, currentPage, totalPages);
    if 1 <= currentPage <= totalPages {
      if totalPages <= 2 {
        assert lead == [Number(1)] && range == [];
        assert s == [Number(1)] + tail;
        ShortRow(s, tail, currentPage, totalPages);
      } else {
        assert Layout(s, lead, range, tail, lo, hi, currentPage, totalPages);
        WindowSpaced(lead, range, tail, lo, hi, currentPage, totalPages);
      }
      SpacedPagesIncrease(s);
    }
  }

  /** With one or two pages the row is just their buttons. */
  lemma ShortRow(s: seq<PageItem>, tail: seq<PageItem>, currentPage: int, totalPages: int)
    requires 1 <= currentPage <= totalPages <= 2
    requires tail == if totalPages > 1 then [Number(totalPages)] else []
    requires s == [Number(1)] + tail
    ensures WellSpaced(s)
    ensures (|s| > 1 && s[1].Ellipsis?) <==> currentPage - 2 > 2
    ensures s[|s| - 1].Number?
    ensures (|s| > 1 && s[|s| - 2].Ellipsis?) <==> currentPage + 2 < totalPages - 1
  {
    assert s == [Number(1)] || s == [Number(1), Number(2)];
  }

  /** What the bar shows: the item bounds, the button row and the enabled arrows. */
  datatype Controls = Controls(startItem: int, endItem: int, pages: seq<PageItem>,
                               previousDisabled: bool, nextDisabled: bool)

  /** The Pagination component: nothing at all for a single page or none; otherwise
      the bounds, a row that begins with page 1 and ends with the last page, and the
      arrows. */
  method Render(currentPage: int, totalPages: int, totalItems: int, itemsPerPage: int)
    returns (controls: Option<Controls>)
    ensures controls.None? <==> totalPages <= 1
    ensures controls.Some? ==>
              && controls.value.startItem == StartItem(currentPage, itemsPerPage)
              && controls.value.endItem == EndItem(currentPage, itemsPerPage, totalItems)
              && controls.value.previousDisabled == PreviousDisabled(currentPage)
              && controls.value.nextDisabled == NextDisabled(currentPage, totalPages)
              && |controls.value.pages| >= 1 && controls.value.pages[0] == Number(1)
              && controls.value.pages[|controls.value.pages| - 1] == Number(totalPages)
              && (1 <= currentPage <= totalPages ==>
                    WellSpaced(controls.value.pages) && currentPage in Pages(controls.value.pages))
  {
    if totalPages <= 1 {
      return None;
    }
    var visiblePages := VisiblePages(currentPage, totalPages);
    controls := Some(Controls(StartItem(currentPage, itemsPerPage),
                              EndItem(currentPage, itemsPerPage, totalItems),
                              visiblePages, PreviousDisabled(currentPage),
                              NextDisabled(currentPage, totalPages)));
  }

  lemma {:induction false} PagesAppend(a: seq<PageItem>, b: seq<PageItem>)
    ensures Pages(a + b) == Pages(a) + Pages(b)
  {
    if a == [] {
      assert a + b == b;
    } else {
      var x, t := a[0], a[1..];
      assert a == [x] + t;
      assert a + b == [x] + (t + b);
      calc {
        Pages(a + b);
        { PagesCons(x, t + b); }
        (if x.Number? then [x.page] else []) + Pages(t + b);
        { PagesAppend(t, b); }
        (if x.Number? then [x.page] else []) + (Pages(t) + Pages(b));
        ((if x.Number? then [x.page] else []) + Pages(t)) + Pages(b);
        { PagesCons(x, t); }
        Pages(a) + Pages(b);
      }
    }
  }

  lemma PagesCons(x: PageItem, t: seq<PageItem>)
    ensures Pages([x] + t) == (if x.Number? then [x.page] else []) + Pages(t)
  {
    assert ([x] + t)[1..] == t;
  }

  lemma {:induction false} PagesOfNumbers(range: seq<PageItem>)
    requires forall k :: 0 <= k < |range| ==> range[k].Number?
    ensures |Pages(range)| == |range|
    ensures forall k :: 0 <= k < |range| ==> Pages(range)[k] == range[k].page
  {
    if range != [] {
      PagesOfNumbers(range[1..]);
    }
  }

  lemma WindowPages(lead: seq<PageItem>, range: seq<PageItem>, tail: seq<PageItem>,
                    lo: int, currentPage: int, totalPages: int)
    requires lo == WindowStart(currentPage)
    requires |range| == (if WindowEnd(currentPage, totalPages) < lo then 0
                         else WindowEnd(currentPage, totalPages) - lo + 1)
    requires forall k :: 0 <= k < |range| ==> range[k] == Number(lo + k)
    requires lead == if currentPage - 2 > 2 then [Number(1), Ellipsis] else [Number(1)]
    requires tail == if currentPage + 2 < totalPages - 1 then [Ellipsis, Number(totalPages)]
                     else if totalPages > 1 then [Number(totalPages)] else []
    ensures totalPages >= 1 ==> forall k ::
              k in Pages(lead + range + tail) <==>
              (k == 1 || (k == totalPages && totalPages > 1) ||
               WindowStart(currentPage) <= k <= WindowEnd(currentPage, totalPages))
  {
    var hi := WindowEnd(currentPage, totalPages);
    var m, r := Pages(range), Pages(tail);
    PagesAppend(lead + range, tail);
    PagesAppend(lead, range);
    EndPages(lead, 1);
    EndPages(tail, totalPages);
    assert Pages(lead + range + tail) == [1] + m + r;
    assert r == if tail == [] then [] else [totalPages];
    WindowNumbers(range, lo, hi);
    if totalPages >= 1 {
      RowMembers(m, r, lo, hi, totalPages);
    }
  }

  /** The pages of the window are exactly the numbers from its first to its last. */
  lemma WindowNumbers(range: seq<PageItem>, lo: int, hi: int)
    requires |range| == (if hi < lo then 0 else hi - lo + 1)
    requires forall k :: 0 <= k < |range| ==> range[k] == Number(lo + k)
    ensures forall k :: k in Pages(range) <==> lo <= k <= hi
  {
    var m := Pages(range);
    PagesOfNumbers(range);
    forall k
      ensures k in m <==> lo <= k <= hi
    {
      if lo <= k <= hi {
        assert m[k - lo] == k;
      }
      if k in m {
        var j :| 0 <= j < |m| && m[j] == k;
        assert m[j] == lo + j;
      }
    }
  }

  lemma RowMembers(m: seq<int>, r: seq<int>, lo: int, hi: int, totalPages: int)
    requires totalPages >= 1
    requires forall k :: k in m <==> lo <= k <= hi
    requires r == [] || r == [totalPages]
    requires totalPages > 1 ==> r == [totalPages]
    ensures forall k :: k in [1] + m + r <==> (k == 1 || (k == totalPages && totalPages > 1) || lo <= k <= hi)
  {
  }

  /** The pages of the ends of the row: a page, possibly with a "..." beside it. */
  lemma EndPages(end: seq<PageItem>, page: int)
    requires end == [] || end == [Number(page)] || end == [Number(page), Ellipsis] || end == [Ellipsis, Number(page)]
    ensures Pages(end) == if end == [] then [] else [page]
  {
    PagesCons(Number(page), []);
    PagesCons(Ellipsis, []);
    PagesCons(Number(page), [Ellipsis]);
    PagesCons(Ellipsis, [Number(page)]);
    assert [Number(page)] + [] == [Number(page)] && [Ellipsis] + [] == [Ellipsis];
  }

  /** The row for three or more pages: page 1, maybe "...", a non-empty window,
      maybe "...", the last page. */
  ghost predicate Layout(s: seq<PageItem>, lead: seq<PageItem>, range: seq<PageItem>, tail: seq<PageItem>,
                         lo: int, hi: int, currentPage: int, totalPages: int)
  {
    && 3 <= totalPages && 1 <= currentPage <= totalPages
    && lo == WindowStart(currentPage) && hi == WindowEnd(currentPage, totalPages)
    && |range| == hi - lo + 1
    && (forall k :: 0 <= k < |range| ==> range[k] == Number(lo + k))
    && lead == (if currentPage - 2 > 2 then [Number(1), Ellipsis] else [Number(1)])
    && tail == (if currentPage + 2 < totalPages - 1 then [Ellipsis, Number(totalPages)]
                else [Number(totalPages)])
    && s == lead + range + tail
  }

  lemma WindowSpaced(lead: seq<PageItem>, range: seq<PageItem>, tail: seq<PageItem>,
                     lo: int, hi: int, currentPage: int, totalPages: int)
    requires Layout(lead + range + tail, lead, range, tail, lo, hi, currentPage, totalPages)
    ensures WellSpaced(lead + range + tail)
    ensures (lead + range + tail)[1].Ellipsis? <==> currentPage - 2 > 2
    ensures (lead + range + tail)[|lead + range + tail| - 1].Number?
    ensures (lead + range + tail)[|lead + range + tail| - 2].Ellipsis? <==> currentPage + 2 < totalPages - 1
  {
    var s := lead + range + tail;
    ConsecutiveButtons(s, lead, range, tail, lo, hi, currentPage, totalPages);
    DotsMarkGaps(s, lead, range, tail, lo, hi, currentPage, totalPages);
    assert s[|lead|] == range[0];
    assert s[|s| - 2] == (if |tail| == 2 then Ellipsis else range[|range| - 1]);
  }

  lemma ConsecutiveButtons(s: seq<PageItem>, lead: seq<PageItem>, range: seq<PageItem>, tail: seq<PageItem>,
                           lo: int, hi: int, currentPage: int, totalPages: int)
    requires Layout(s, lead, range, tail, lo, hi, currentPage, totalPages)
    ensures forall i :: 0 <= i < |s| - 1 && s[i].Number? && s[i + 1].Number? ==>
              s[i + 1].page == s[i].page + 1
  {
    var a, b := |lead|, |lead| + |range|;
    forall i | 0 <= i < |s| - 1 && s[i].Number? && s[i + 1].Number?
      ensures s[i + 1].page == s[i].page + 1
    {
      if i < a {
        assert i == 0 && a == 1 && lo == 2 && s[1] == range[0];
      } else if i < b - 1 {
        assert s[i] == range[i - a] && s[i + 1] == range[i + 1 - a];
      } else {
        assert s[b] == tail[0] && s[b - 1] == range[|range| - 1];
        assert i == b - 1 && tail == [Number(totalPages)] && hi == totalPages - 1;
      }
    }
  }

  lemma DotsMarkGaps(s: seq<PageItem>, lead: seq<PageItem>, range: seq<PageItem>, tail: seq<PageItem>,
                     lo: int, hi: int, currentPage: int, totalPages: int)
    requires Layout(s, lead, range, tail, lo, hi, currentPage, totalPages)
    ensures forall i :: 0 <= i < |s| && s[i].Ellipsis? ==>
              0 < i < |s| - 1 && s[i - 1].Number? && s[i + 1].Number? && s[i + 1].page > s[i - 1].page + 1
  {
    var a, b := |lead|, |lead| + |range|;
    assert forall k :: a <= k < b ==> s[k] == range[k - a];
    forall i | 0 <= i < |s| && s[i].Ellipsis?
      ensures 0 < i < |s| - 1 && s[i - 1].Number? && s[i + 1].Number? && s[i + 1].page > s[i - 1].page + 1
    {
      if i < a {
        assert i == 1 && a == 2 && lo > 2 && s[0] == Number(1) && s[2] == range[0];
      } else {
        assert s[i] == tail[i - b];
        assert i == b && |tail| == 2 && s[i + 1] == Number(totalPages) && s[b - 1] == range[|range| - 1];
      }
    }
  }

  predicate Increasing(pages: seq<int>) {
    forall i, j :: 0 <= i < j < |pages| ==> pages[i] < pages[j]
  }

  /** A well-spaced row that starts with a button lists its pages in strictly
      increasing order, so no page appears twice. */
  lemma SpacedPagesIncrease(items: seq<PageItem>)
    requires WellSpaced(items)
    ensures Increasing(Pages(items))
  {
    forall i, j | 0 <= i < j < |items| && items[i].Number? && items[j].Number?
      ensures items[i].page < items[j].page
    {
      SpacedAscending(items, i, j);
    }
    AscendingPages(items);
  }

  lemma {:induction false} SpacedAscending(items: seq<PageItem>, i: int, j: int)
    requires WellSpaced(items)
    requires 0 <= i < j < |items| && items[i].Number? && items[j].Number?
    ensures items[i].page < items[j].page
    decreases j - i
  {
    if items[i + 1].Number? {
      if i + 1 < j {
        SpacedAscending(items, i + 1, j);
      }
    } else if i + 2 < j {
      SpacedAscending(items, i + 2, j);
    }
  }

  lemma {:induction false} AscendingPages(items: seq<PageItem>)
    requires forall i, j :: 0 <= i < j < |items| && items[i].Number? && items[j].Number? ==>
               items[i].page < items[j].page
    ensures Increasing(Pages(items))
  {
    if items != [] {
      var rest := items[1..];
      assert forall i, j :: 0 <= i < j < |rest| && rest[i].Number? && rest[j].Number? ==>
               rest[i].page < rest[j].page by {
        assert forall k :: 0 <= k < |rest| ==> rest[k] == items[k + 1];
      }
      AscendingPages(rest);
      if items[0].Number? {
        forall x | x in Pages(rest) ensures items[0].page < x {
          var k := PageSource(rest, x);
          assert rest[k] == items[k + 1];
        }
        ConsIncreasing(items[0].page, Pages(rest));
      }
      assert items == [items[0]] + rest;
      PagesCons(items[0], rest);
    }
  }

  /** Where a listed page comes from. */
  lemma {:induction false} PageSource(items: seq<PageItem>, p: int) returns (k: int)
    requires p in Pages(items)
    ensures 0 <= k < |items| && items[k] == Number(p)
  {
    if items[0].Number? && items[0].page == p {
      k := 0;
    } else {
      k := PageSource(items[1..], p);
      k := k + 1;
    }
  }

  lemma ConsIncreasing(p: int, qs: seq<int>)
    requires Increasing(qs) && forall x :: x in qs ==> p < x
    ensures Increasing([p] + qs)
  {
    var ps := [p] + qs;
    forall i, j | 0 <= i < j < |ps| ensures ps[i] < ps[j] {
      if i == 0 {
        assert ps[j] == qs[j - 1] && qs[j - 1] in qs;
      } else {
        assert ps[i] == qs[i - 1] && ps[j] == qs[j - 1];
      }
    }
  }
}
