/** The pager of the localStorage version of the admin pages
    (src/components/common/Pagination.tsx): one button per page, no window. */
module LocalPagination {
  import opened Wrappers

  /** A page button and whether it is marked active. */
  datatype PageButton = PageButton(page: int, active: bool)

  /** The props after their defaults: page 1 of 3. */
  function Props(currentPage: Option<int>, totalPages: Option<int>): (r: (int, int))
    ensures r.0 == if currentPage.Some? then currentPage.value else 1
    ensures r.1 == if totalPages.Some? then totalPages.value else 3
  {
    (currentPage.GetOr(1), totalPages.GetOr(3))
  }

  /** `Array.from({ length: totalPages }, (_, i) => i + 1)`, each button
      marked when it is the current page; a negative length gives none. */
  function Buttons(c: int, t: int): seq<PageButton> {
    seq(if t >= 0 then t else 0, i => PageButton(i + 1, i + 1 == c))
  }

  /** The buttons are the pages 1 to `t` in order, so no page is listed
      twice, and a button is active exactly when it is the current page. */
  lemma ButtonsArePages(c: int, t: int)
    ensures var b := Buttons(c, t);
      && |b| == (if t >= 0 then t else 0)
      && (forall i :: 0 <= i < |b| ==> b[i].page == i + 1 && (b[i].active <==> b[i].page == c))
      && (forall i, j :: 0 <= i < j < |b| ==> b[i].page < b[j].page)
      && (forall x :: x in b ==> 1 <= x.page <= t)
  {
  }

  /** Exactly one button is active when the current page is in range, and
      none otherwise. */
  lemma OneActive(c: int, t: int)
    ensures var b := Buttons(c, t);
      && ((exists i :: 0 <= i < |b| && b[i].active) <==> 1 <= c <= t)
      && (forall i, j :: 0 <= i < |b| && 0 <= j < |b| && b[i].active && b[j].active ==> i == j)
  {
    var b := Buttons(c, t);
    if 1 <= c <= t {
      assert b[c - 1].active;
    }
  }

  /** The previous and next buttons request the neighbouring page numbers
      without clamping: from page 1 the previous one asks for page 0. */
  function PrevTarget(c: int): (r: int)
    ensures r + 1 == c
  {
    c - 1
  }

  function NextTarget(c: int): (r: int)
    ensures r - 1 == c
  {
    c + 1
  }

  /** Nothing clamps the two arrows: previous leads to a listed page exactly
      from pages 2 to t + 1 and next exactly from pages 0 to t - 1, so on
      the first page previous asks for a page no button shows, and on the
      last page next does, whatever the number of pages. */
  lemma ArrowsLeaveRange(c: int, t: int)
    ensures (exists b :: b in Buttons(c, t) && b.page == PrevTarget(c)) <==> 2 <= c <= t + 1
    ensures (exists b :: b in Buttons(c, t) && b.page == NextTarget(c)) <==> 0 <= c <= t - 1
  {
    var bs := Buttons(c, t);
    ButtonsArePages(c, t);
    if 2 <= c <= t + 1 {
      assert bs[c - 2].page == PrevTarget(c);
    }
    if 0 <= c <= t - 1 {
      assert bs[c].page == NextTarget(c);
    }
  }

  /** With the defaults there are three buttons and page 1 is active. */
  lemma DefaultButtons()
    ensures var (c, t) := Props(None, None);
      Buttons(c, t) == [PageButton(1, true), PageButton(2, false), PageButton(3, false)]
      && PrevTarget(c) == 0
  {
  }
}
