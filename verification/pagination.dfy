/**
 * The page bar under every paginated list: a window of at most five page
 * numbers around the current page, the first and last pages outside the
 * window with an ellipsis where pages are skipped, and the previous / next
 * buttons.
 */
module Pagination {
  import opened Common

  /**
   * `getPageNumbers`: the window starts two pages before the current one
   * (never before 1) and ends four pages later (never after the last page);
   * near the end it is pulled back so that it still holds five pages.
   * The component renders nothing unless there are at least two pages.
   */
  method PageNumbers(page: int, totalPages: int) returns (pages: seq<int>)
    requires totalPages > 1
    ensures |pages| == Min(5, totalPages)
    ensures forall i :: 0 <= i < |pages| ==> pages[i] == pages[0] + i
    ensures 1 <= pages[0] && pages[|pages| - 1] <= totalPages
    ensures 1 <= page <= totalPages ==> page in pages
    ensures page <= 3 ==> pages[0] == 1
    ensures page >= totalPages - 2 ==> pages[|pages| - 1] == totalPages
    ensures 3 <= page <= totalPages - 2 ==> pages[2] == page
  {
    var start := Max(1, page - 2);
    var end := Min(totalPages, start + 4);
    if end - start < 4 {
      start := Max(1, end - 4);
    }
    pages := [];
    var i := start;
    while i <= end
      invariant start <= i <= end + 1
      invariant |pages| == i - start
      invariant forall k :: 0 <= k < |pages| ==> pages[k] == start + k
    {
      pages := pages + [i];
      i := i + 1;
    }
    if 1 <= page <= totalPages {
      assert pages[page - start] == page;
    }
  }

  /** One element of the bar between the arrows: a page button (highlighted when current) or an ellipsis. */
  datatype Control = PageButton(n: int, current: bool) | Gap

  /** What the component renders: the previous arrow, the controls, the next arrow. */
  datatype Bar = Bar(prevDisabled: bool, controls: seq<Control>, nextDisabled: bool)

  /** The buttons of the window; only the current page is highlighted. */
  function WindowButtons(pages: seq<int>, page: int): (c: seq<Control>)
    ensures |c| == |pages|
    ensures forall i :: 0 <= i < |c| ==> c[i] == PageButton(pages[i], pages[i] == page)
  {
    seq(|pages|, i requires 0 <= i < |pages| => PageButton(pages[i], pages[i] == page))
  }

  /** Page 1 in front of a window that does not start at 1, and an ellipsis when page 2 is skipped too. */
  function Head(first: int): (h: seq<Control>)
    ensures |h| == (if first > 2 then 2 else if first == 2 then 1 else 0)
    ensures |h| > 0 ==> h[0] == PageButton(1, false)
    ensures |h| == 2 ==> h[1] == Gap
  {
    if first > 1 then [PageButton(1, false)] + (if first > 2 then [Gap] else []) else []
  }

  /** The last page behind a window that stops short of it, after an ellipsis when the page before it is skipped too. */
  function Tail(last: int, totalPages: int): (t: seq<Control>)
    ensures |t| == (if last < totalPages - 1 then 2 else if last == totalPages - 1 then 1 else 0)
    ensures |t| > 0 ==> t[|t| - 1] == PageButton(totalPages, false)
    ensures |t| == 2 ==> t[0] == Gap
  {
    if last < totalPages then (if last < totalPages - 1 then [Gap] else []) + [PageButton(totalPages, false)] else []
  }

  /**
   * The bar for a window: page 1 in front when the window does not start
   * at 1, with an ellipsis when it starts after 2; the last page behind when
   * the window stops short of it, with an ellipsis when it stops before the
   * page just before it. The arrows are disabled at the ends.
   */
  function Render(page: int, totalPages: int, pages: seq<int>): Bar
    requires pages != []
  {
    Bar(page <= 1, Head(pages[0]) + WindowButtons(pages, page) + Tail(pages[|pages| - 1], totalPages), page >= totalPages)
  }

  /** A window as `getPageNumbers` returns it: consecutive pages inside `1..totalPages`. */
  predicate IsWindow(pages: seq<int>, totalPages: int) {
    && pages != []
    && (forall i :: 0 <= i < |pages| ==> pages[i] == pages[0] + i)
    && 1 <= pages[0] && pages[|pages| - 1] <= totalPages
  }

  /** The bar begins with page 1 and ends with the last page. */
  lemma RenderEnds(page: int, totalPages: int, pages: seq<int>)
    requires IsWindow(pages, totalPages)
    ensures var c := Render(page, totalPages, pages).controls;
      && c != [] && c[0] == PageButton(1, page == 1 && pages[0] == 1)
      && c[|c| - 1] == PageButton(totalPages, page == totalPages && pages[|pages| - 1] == totalPages)
  {
    var h, w, t := Head(pages[0]), WindowButtons(pages, page), Tail(pages[|pages| - 1], totalPages);
    var c := h + w + t;
    assert Render(page, totalPages, pages).controls == c;
    if |h| > 0 {
      assert c[0] == h[0];
    } else {
      assert c[0] == w[0];
    }
    if |t| > 0 {
      assert c[|c| - 1] == t[|t| - 1];
    } else {
      assert c[|c| - 1] == w[|w| - 1];
    }
  }

  /** Two buttons side by side show consecutive pages. */
  lemma RenderAdjacent(page: int, totalPages: int, pages: seq<int>)
    requires IsWindow(pages, totalPages)
    ensures var c := Render(page, totalPages, pages).controls;
      forall i :: 0 <= i < |c| - 1 && c[i].PageButton? && c[i + 1].PageButton? ==> c[i + 1].n == c[i].n + 1
  {
    AdjacentIn(Render(page, totalPages, pages).controls, Head(pages[0]), WindowButtons(pages, page),
               Tail(pages[|pages| - 1], totalPages), pages, totalPages);
  }

  /** `RenderAdjacent` for controls laid out as a head, the window buttons and a tail. */
  lemma AdjacentIn(c: seq<Control>, h: seq<Control>, w: seq<Control>, t: seq<Control>, pages: seq<int>, totalPages: int)
    requires IsWindow(pages, totalPages)
    requires |h| == (if pages[0] > 2 then 2 else if pages[0] == 2 then 1 else 0)
    requires |h| > 0 ==> h[0] == PageButton(1, false)
    requires |h| == 2 ==> h[1] == Gap
    requires |w| == |pages| && forall i :: 0 <= i < |w| ==> w[i].PageButton? && w[i].n == pages[i]
    requires var last := pages[|pages| - 1];
      |t| == (if last < totalPages - 1 then 2 else if last == totalPages - 1 then 1 else 0)
    requires |t| > 0 ==> t[|t| - 1] == PageButton(totalPages, false)
    requires |t| == 2 ==> t[0] == Gap
    requires c == h + w + t
    ensures forall i :: 0 <= i < |c| - 1 && c[i].PageButton? && c[i + 1].PageButton? ==> c[i + 1].n == c[i].n + 1
  {
    forall i | 0 <= i < |c| - 1 && c[i].PageButton? && c[i + 1].PageButton?
      ensures c[i + 1].n == c[i].n + 1
    {
      if |h| <= i && i + 1 < |h| + |w| {
        assert c[i] == w[i - |h|] && c[i + 1] == w[i + 1 - |h|];
      } else if i + 1 == |h| {
        assert c[i + 1] == w[0];
      } else if i + 1 == |h| + |w| {
        var j := |w| - 1;
        assert c[|h| + j] == w[j];
        assert |t| > 0 && c[|h| + |w| + 0] == t[0];
      }
    }
  }

  /** An ellipsis stands between two buttons and hides at least one page. */
  lemma RenderGaps(page: int, totalPages: int, pages: seq<int>)
    requires IsWindow(pages, totalPages)
    ensures var c := Render(page, totalPages, pages).controls;
      forall i :: 0 <= i < |c| && c[i].Gap? ==>
        0 < i < |c| - 1 && c[i - 1].PageButton? && c[i + 1].PageButton? && c[i + 1].n > c[i - 1].n + 1
  {
    var h, w, t := Head(pages[0]), WindowButtons(pages, page), Tail(pages[|pages| - 1], totalPages);
    var c := h + w + t;
    assert Render(page, totalPages, pages).controls == c;
    forall i | 0 <= i < |c| && c[i].Gap?
      ensures 0 < i < |c| - 1 && c[i - 1].PageButton? && c[i + 1].PageButton? && c[i + 1].n > c[i - 1].n + 1
    {
      if i < |h| {
        assert c[i] == h[i] && c[0] == h[0] && c[2] == w[0];
      } else if i >= |h| + |w| {
        var j := i - |h| - |w|;
        assert c[i] == t[j] && c[i - 1] == w[|w| - 1] && c[i + 1] == t[1];
      }
    }
  }

  /** Only the current page is highlighted. */
  lemma RenderHighlight(page: int, totalPages: int, pages: seq<int>)
    requires pages != []
    ensures var c := Render(page, totalPages, pages).controls;
      forall i :: 0 <= i < |c| && c[i].PageButton? && c[i].current ==> c[i].n == page
  {
    var h, w, t := Head(pages[0]), WindowButtons(pages, page), Tail(pages[|pages| - 1], totalPages);
    var c := h + w + t;
    assert Render(page, totalPages, pages).controls == c;
    forall i | 0 <= i < |c| && c[i].PageButton? && c[i].current
      ensures c[i].n == page
    {
      if |h| <= i < |h| + |w| {
        assert c[i] == w[i - |h|];
      }
    }
  }

  /** A page of the window is shown, highlighted when it is the current one. */
  lemma RenderShowsPage(page: int, totalPages: int, pages: seq<int>)
    requires pages != [] && page in pages
    ensures var c := Render(page, totalPages, pages).controls;
      exists i :: 0 <= i < |c| && c[i] == PageButton(page, true)
  {
    var h := Head(pages[0]);
    var w := WindowButtons(pages, page);
    var k :| 0 <= k < |pages| && pages[k] == page;
    assert w[k] == PageButton(page, true);
    assert (h + w + Tail(pages[|pages| - 1], totalPages))[|h| + k] == w[k];
  }

  /**
   * The component: nothing for zero or one page, otherwise the bar of the
   * window around `page`: it starts at page 1 and ends at the last page,
   * shows the current page highlighted and no other, and an arrow is
   * disabled exactly when following it would leave `1..totalPages`
   * (`RenderAdjacent` and `RenderGaps` state how the rest is laid out).
   */
  method Pagination(page: int, totalPages: int) returns (bar: Option<Bar>)
    ensures bar.None? <==> totalPages <= 1
    ensures bar.Some? ==>
      var c := bar.value.controls;
      && c != [] && c[0].PageButton? && c[0].n == 1
      && c[|c| - 1].PageButton? && c[|c| - 1].n == totalPages
      && (1 <= page <= totalPages ==> exists i :: 0 <= i < |c| && c[i] == PageButton(page, true))
      && (forall i :: 0 <= i < |c| && c[i].PageButton? && c[i].current ==> c[i].n == page)
      && (bar.value.prevDisabled <==> page - 1 < 1)
      && (bar.value.nextDisabled <==> page + 1 > totalPages)
  {
    if totalPages <= 1 {
      return None;
    }
    var pages := PageNumbers(page, totalPages);
    RenderEnds(page, totalPages, pages);
    RenderHighlight(page, totalPages, pages);
    var b := Render(page, totalPages, pages);
    if 1 <= page <= totalPages {
      RenderShowsPage(page, totalPages, pages);
    }
    return Some(b);
  }
}
