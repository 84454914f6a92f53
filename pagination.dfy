/** The admin pages' pager (fe/src/components/common/Pagination.tsx): the
    window of page numbers with ellipses, and the previous/next buttons. */
module Pagination {
  import opened Wrappers

  /** An entry of the pager: a page button or the '...' marker. */
  datatype PageItem = Page(n: int) | Ellipsis

  /** Up to this many pages every page gets a button. */
  const MaxVisiblePages := 10

  /** The page buttons `lo`, `lo + 1`, ..., `hi`; none when `hi < lo`. */
  function Run(lo: int, hi: int): (r: seq<PageItem>)
    ensures |r| == if hi >= lo then hi - lo + 1 else 0
    ensures forall k :: 0 <= k < |r| ==> r[k] == Page(lo + k)
  {
    seq(if hi >= lo then hi - lo + 1 else 0, k => Page(lo + k))
  }

  /** The entries the pager shows for page `c` of `t`: every page for at most
      ten pages; otherwise the first seven, the last seven or the five around
      `c`, with the first and last page and an ellipsis for each gap. */
  function Window(c: int, t: int): seq<PageItem> {
    if t <= MaxVisiblePages then Run(1, t)
    else if c <= 5 then Run(1, 7) + [Ellipsis, Page(t)]
    else if c >= t - 4 then [Page(1), Ellipsis] + Run(t - 6, t)
    else [Page(1), Ellipsis] + Run(c - 2, c + 2) + [Ellipsis, Page(t)]
  }

  /** One more page at the end of a run. */
  lemma RunSnoc(lo: int, hi: int)
    requires hi >= lo
    ensures Run(lo, hi) == Run(lo, hi - 1) + [Page(hi)]
  {
    var a, b := Run(lo, hi), Run(lo, hi - 1) + [Page(hi)];
    assert |a| == |b|;
    forall k | 0 <= k < |a| ensures a[k] == b[k] {
    }
  }

  /** `for (let i = lo; i <= hi; i++) pages.push(i)`. */
  method PushRange(pages: seq<PageItem>, lo: int, hi: int) returns (r: seq<PageItem>)
    ensures r == pages + Run(lo, hi)
  {
    r := pages;
    var i := lo;
    while i <= hi
      invariant lo <= i && (i <= hi + 1 || i == lo)
      invariant r == pages + Run(lo, i - 1)
      decreases hi - i
    {
      RunSnoc(lo, i);
      r := r + [Page(i)];
      i := i + 1;
    }
    assert Run(lo, i - 1) == Run(lo, hi);
  }

  /** `getPageNumbers`. */
  method GetPageNumbers(currentPage: int, totalPages: int) returns (pages: seq<PageItem>)
    ensures pages == Window(currentPage, totalPages)
  {
    pages := [];
    if totalPages <= MaxVisiblePages {
      pages := PushRange(pages, 1, totalPages);
    } else {
      if currentPage <= 5 {
        pages := PushRange(pages, 1, 7);
        pages := pages + [Ellipsis];
        pages := pages + [Page(totalPages)];
      } else if currentPage >= totalPages - 4 {
        pages := pages + [Page(1)];
        pages := pages + [Ellipsis];
        pages := PushRange(pages, totalPages - 6, totalPages);
      } else {
        pages := pages + [Page(1)];
        pages := pages + [Ellipsis];
        pages := PushRange(pages, currentPage - 2, currentPage + 2);
        pages := pages + [Ellipsis];
        pages := pages + [Page(totalPages)];
      }
    }
  }

  // ---------------------------------------------------------------------
  // Properties of the window

  /** Past ten pages the pager always shows nine entries; up to ten it shows
      one per page. */
  lemma WindowLength(c: int, t: int)
    ensures t > MaxVisiblePages ==> |Window(c, t)| == 9
    ensures t <= MaxVisiblePages ==> |Window(c, t)| == if t >= 1 then t else 0
  {
  }

  /** The page buttons run from page 1 to the last page in strictly
      increasing order, whatever the current page. */
  lemma WindowIncreasing(c: int, t: int)
    requires t >= 1
    ensures var w := Window(c, t);
      && w != [] && w[0] == Page(1) && w[|w| - 1] == Page(t)
      && forall k, l :: 0 <= k < l < |w| && w[k].Page? && w[l].Page? ==> w[k].n < w[l].n
  {
    var w := Window(c, t);
    if t > MaxVisiblePages {
      WindowLength(c, t);
      assert w[0] == Page(1) && w[8] == Page(t);
      if c <= 5 {
        assert forall k :: 0 <= k < 7 ==> w[k] == Page(k + 1);
      } else if c >= t - 4 {
        assert forall k :: 2 <= k < 9 ==> w[k] == Page(t - 8 + k);
      } else {
        assert forall k :: 2 <= k < 7 ==> w[k] == Page(c - 4 + k);
      }
    }
  }

  /** An ellipsis stands exactly for skipped pages: neighbouring buttons are
      consecutive pages, and the buttons around an ellipsis are more than one
      page apart. Up to ten pages there is no ellipsis. */
  lemma WindowGaps(c: int, t: int)
    ensures var w := Window(c, t);
      && (t <= MaxVisiblePages ==> forall k :: 0 <= k < |w| ==> w[k].Page?)
      && (forall k :: 0 <= k < |w| - 1 && w[k].Page? && w[k + 1].Page? ==> w[k + 1].n == w[k].n + 1)
      && (forall k :: 0 <= k < |w| && w[k].Ellipsis? ==>
            0 < k < |w| - 1 && w[k - 1].Page? && w[k + 1].Page? && w[k + 1].n > w[k - 1].n + 1)
  {
    var w := Window(c, t);
    if t > MaxVisiblePages {
      WindowLength(c, t);
      if c <= 5 {
        assert forall k :: 0 <= k < 7 ==> w[k] == Page(k + 1);
        assert w[7] == Ellipsis && w[8] == Page(t);
      } else if c >= t - 4 {
        assert forall k :: 2 <= k < 9 ==> w[k] == Page(t - 8 + k);
        assert w[0] == Page(1) && w[1] == Ellipsis;
      } else {
        assert forall k :: 2 <= k < 7 ==> w[k] == Page(c - 4 + k);
        assert w[0] == Page(1) && w[1] == Ellipsis && w[7] == Ellipsis && w[8] == Page(t);
      }
    }
  }

  /** The current page always has a button, and exactly one. */
  lemma WindowShowsCurrent(c: int, t: int)
    requires 1 <= c <= t
    ensures Page(c) in Window(c, t)
    ensures forall k, l :: 0 <= k < l < |Window(c, t)| ==> !(Window(c, t)[k] == Page(c) == Window(c, t)[l])
  {
    var w := Window(c, t);
    WindowIncreasing(c, t);
    if t <= MaxVisiblePages {
      assert w[c - 1] == Page(c);
    } else {
      WindowLength(c, t);
      if c <= 5 {
        assert w[c - 1] == Page(c);
      } else if c >= t - 4 {
        assert w[c - t + 8] == Page(c);
      } else {
        assert w[4] == Page(c);
      }
    }
  }

  // ---------------------------------------------------------------------
  // The buttons

  /** The props after their defaults: page 1 of 1. */
  function Props(currentPage: Option<int>, totalPages: Option<int>): (r: (int, int))
    ensures currentPage.Some? ==> r.0 == currentPage.value
    ensures currentPage.None? ==> r.0 == 1
    ensures totalPages.Some? ==> r.1 == totalPages.value
    ensures totalPages.None? ==> r.1 == 1
  {
    (currentPage.GetOr(1), totalPages.GetOr(1))
  }

  /** The previous button is disabled on page 1, the next one on the last
      page; they request the neighbouring page. */
  datatype Controls = Controls(prevDisabled: bool, nextDisabled: bool, prevTarget: int, nextTarget: int)

  function Buttons(c: int, t: int): Controls {
    Controls(c == 1, c == t, c - 1, c + 1)
  }

  /** On a page in range, an enabled previous or next button leads to a page
      in range, and the buttons are disabled exactly at the two ends. */
  lemma ButtonsStayInRange(c: int, t: int)
    requires 1 <= c <= t
    ensures var b := Buttons(c, t);
      && (!b.prevDisabled <==> 1 <= b.prevTarget)
      && (!b.nextDisabled <==> b.nextTarget <= t)
      && (!b.prevDisabled ==> 1 <= b.prevTarget <= t)
      && (!b.nextDisabled ==> 1 <= b.nextTarget <= t)
  {
  }

  /** With no props the pager shows a single page and both buttons are off. */
  lemma DefaultPager()
    ensures var (c, t) := Props(None, None);
      && Window(c, t) == [Page(1)]
      && Buttons(c, t).prevDisabled && Buttons(c, t).nextDisabled
  {
    assert Run(1, 1) == [Page(1)];
  }
}
