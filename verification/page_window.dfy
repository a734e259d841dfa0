/**
 * The page-window calculator of the pagination control (the `pagesArr`
 * getter): which page buttons and ellipsis markers are shown, given the
 * current page, the page count and the button budget `maxPageBtn`.
 */
module PageWindow {
  import opened Wrappers

  /** A button label: a page number or the '...' marker. */
  datatype Label = Page(n: int) | Ellipsis

  function Reverse<T>(s: seq<T>): (r: seq<T>)
    ensures |r| == |s|
    ensures forall i :: 0 <= i < |s| ==> r[i] == s[|s| - 1 - i]
  {
    if s == [] then [] else Reverse(s[1..]) + [s[0]]
  }

  /** `current <= (maxPageBtn + 1) / 2`, with JavaScript's exact division. */
  predicate NearStart(current: int, maxPageBtn: int) {
    2 * current <= maxPageBtn + 1
  }

  /** `current >= pageCount - (maxPageBtn - 1) / 2`, with JavaScript's exact division. */
  predicate NearEnd(current: int, pageCount: int, maxPageBtn: int) {
    2 * current >= 2 * pageCount - maxPageBtn + 1
  }

  /** Neither edge window applies: the window is centred on the current page. */
  predicate Centred(current: int, pageCount: int, maxPageBtn: int) {
    !NearStart(current, maxPageBtn) && !NearEnd(current, pageCount, maxPageBtn)
  }

  /** Where the '...' markers of a truncated window sit. */
  function EllipsisSlots(current: int, pageCount: int, maxPageBtn: int): set<int> {
    if NearStart(current, maxPageBtn) then {maxPageBtn - 2}
    else if NearEnd(current, pageCount, maxPageBtn) then {1}
    else {1, maxPageBtn - 2}
  }

  /**
   * `pagesArr`. `None` stands for the RangeError JavaScript raises when the
   * code asks for `Array(n)` with a negative n.
   */
  function PagesArr(current: int, pageCount: Option<int>, maxPageBtn: int): (r: Option<seq<Label>>)
    ensures pageCount.None? || pageCount == Some(0) ==> r == Some([])
    ensures pageCount.Some? && pageCount.value < 0 ==> r.None?
    ensures pageCount.Some? && 0 < pageCount.value && (pageCount.value <= maxPageBtn || 4 <= maxPageBtn) ==>
              r.Some? && |r.value| == (if pageCount.value <= maxPageBtn then pageCount.value else maxPageBtn)
  {
    if pageCount.None? || pageCount.value == 0 then Some([])
    else
      var p := pageCount.value;
      if p <= maxPageBtn then
        if p < 0 then None else Some(seq(p, i => Page(i + 1)))
      else if NearStart(current, maxPageBtn) then
        if maxPageBtn - 1 < 0 then None
        else Some(seq(maxPageBtn - 1, i => if i == maxPageBtn - 2 then Ellipsis else Page(i + 1)) + [Page(p)])
      else if NearEnd(current, p, maxPageBtn) then
        if maxPageBtn - 2 < 0 then None
        else Some([Page(1), Ellipsis] + Reverse(seq(maxPageBtn - 2, i => Page(p - i))))
      else if maxPageBtn - 4 < 0 then None
      else Some([Page(1), Ellipsis]
                + seq(maxPageBtn - 4, i => Page(current - (maxPageBtn - 3) / 2 + i + 1))
                + [Ellipsis, Page(p)])
  }

  /**
   * A truncated window reads correctly: every number is a page, numbers
   * strictly increase, two adjacent numbers are consecutive pages, and a
   * '...' between two numbers stands for at least one page.
   */
  predicate WellFormed(w: seq<Label>, pageCount: int) {
    (forall i :: 0 <= i < |w| && w[i].Page? ==> 1 <= w[i].n <= pageCount)
    && (forall i, j :: 0 <= i < j < |w| && w[i].Page? && w[j].Page? ==> w[i].n < w[j].n)
    && (forall i :: 0 <= i < |w| - 1 && w[i].Page? && w[i + 1].Page? ==> w[i + 1].n == w[i].n + 1)
    && (forall i :: 1 <= i < |w| - 1 && w[i].Ellipsis? && w[i - 1].Page? && w[i + 1].Page? ==>
          w[i + 1].n >= w[i - 1].n + 2)
  }

  /** Up to `maxPageBtn` pages, every page from 1 to pageCount is shown, in order. */
  lemma FullRange(current: int, pageCount: int, maxPageBtn: int)
    requires 0 < pageCount <= maxPageBtn
    ensures PagesArr(current, Some(pageCount), maxPageBtn).Some?
    ensures var w := PagesArr(current, Some(pageCount), maxPageBtn).value;
      |w| == pageCount && (forall i :: 0 <= i < |w| ==> w[i] == Page(i + 1))
  {
  }

  /** The labels of each truncated regime, position by position. */
  lemma TruncatedAt(current: int, pageCount: int, maxPageBtn: int, i: int)
    requires 4 <= maxPageBtn < pageCount && 0 <= i < maxPageBtn
    ensures PagesArr(current, Some(pageCount), maxPageBtn).Some?
    ensures var w := PagesArr(current, Some(pageCount), maxPageBtn).value;
      var k := (maxPageBtn - 3) / 2;
      |w| == maxPageBtn &&
      w[i] == if i == 0 then Page(1)
              else if i == maxPageBtn - 1 then Page(pageCount)
              else if i in EllipsisSlots(current, pageCount, maxPageBtn) then Ellipsis
              else if NearStart(current, maxPageBtn) then Page(i + 1)
              else if NearEnd(current, pageCount, maxPageBtn) then Page(pageCount - maxPageBtn + 1 + i)
              else Page(current - k - 1 + i)
  {
    var w := PagesArr(current, Some(pageCount), maxPageBtn).value;
    var m := maxPageBtn;
    if NearStart(current, m) {
    } else if NearEnd(current, pageCount, m) {
      var tail := seq(m - 2, j => Page(pageCount - j));
      assert w == [Page(1), Ellipsis] + Reverse(tail);
      if i >= 2 {
        assert w[i] == Reverse(tail)[i - 2] == tail[m - 3 - (i - 2)];
      }
    } else {
      var run := seq(m - 4, j => Page(current - (m - 3) / 2 + j + 1));
      assert w == [Page(1), Ellipsis] + run + [Ellipsis, Page(pageCount)];
      if 2 <= i < m - 2 {
        assert w[i] == run[i - 2];
      }
    }
  }

  /**
   * A window that has to leave pages out has exactly `maxPageBtn` labels,
   * starts at page 1, ends at the last page, shows one '...' next to an edge
   * and two when centred, and reads correctly.
   */
  lemma Truncated(current: int, pageCount: int, maxPageBtn: int)
    requires 4 <= maxPageBtn < pageCount
    ensures PagesArr(current, Some(pageCount), maxPageBtn).Some?
    ensures var w := PagesArr(current, Some(pageCount), maxPageBtn).value;
      && |w| == maxPageBtn
      && w[0] == Page(1) && w[maxPageBtn - 1] == Page(pageCount)
      && !(NearStart(current, maxPageBtn) && NearEnd(current, pageCount, maxPageBtn))
      && (forall i :: 0 <= i < |w| ==> (w[i].Ellipsis? <==> i in EllipsisSlots(current, pageCount, maxPageBtn)))
      && |EllipsisSlots(current, pageCount, maxPageBtn)| == (if Centred(current, pageCount, maxPageBtn) then 2 else 1)
      && WellFormed(w, pageCount)
  {
    var w := PagesArr(current, Some(pageCount), maxPageBtn).value;
    var m := maxPageBtn;
    var k := (m - 3) / 2;
    forall i | 0 <= i < m
      ensures w[i] == if i == 0 then Page(1)
              else if i == m - 1 then Page(pageCount)
              else if i in EllipsisSlots(current, pageCount, m) then Ellipsis
              else if NearStart(current, m) then Page(i + 1)
              else if NearEnd(current, pageCount, m) then Page(pageCount - m + 1 + i)
              else Page(current - k - 1 + i)
    {
      TruncatedAt(current, pageCount, m, i);
    }
    TruncatedAt(current, pageCount, m, 0);
    if Centred(current, pageCount, m) {
      assert {1, m - 2} == {1} + {m - 2};
      assert 1 != m - 2;
    }
  }

  /**
   * The current page's button is shown, exactly once, whenever the current
   * page is a real page and the budget leaves room for a centred run.
   */
  lemma ShowsCurrent(current: int, pageCount: int, maxPageBtn: int)
    requires 1 <= current <= pageCount
    requires pageCount <= maxPageBtn || 5 <= maxPageBtn
    ensures PagesArr(current, Some(pageCount), maxPageBtn).Some?
    ensures var w := PagesArr(current, Some(pageCount), maxPageBtn).value;
      && (exists i :: 0 <= i < |w| && w[i] == Page(current))
      && (forall i, j :: 0 <= i < |w| && 0 <= j < |w| && w[i] == Page(current) && w[j] == Page(current) ==> i == j)
  {
    var w := PagesArr(current, Some(pageCount), maxPageBtn).value;
    var m := maxPageBtn;
    if pageCount <= m {
      FullRange(current, pageCount, m);
      assert w[current - 1] == Page(current);
    } else {
      Truncated(current, pageCount, m);
      var k := (m - 3) / 2;
      var i := if NearStart(current, m) then current - 1
               else if NearEnd(current, pageCount, m) then current - pageCount + m - 1
               else k + 1;
      TruncatedAt(current, pageCount, m, i);
      assert w[i] == Page(current);
    }
  }

  /** The windows for a 100-page list with the default budget of 7. */
  lemma DefaultBudgetExamples()
    ensures PagesArr(1, Some(100), 7) == Some([Page(1), Page(2), Page(3), Page(4), Page(5), Ellipsis, Page(100)])
    ensures PagesArr(50, Some(100), 7) == Some([Page(1), Ellipsis, Page(49), Page(50), Page(51), Ellipsis, Page(100)])
    ensures PagesArr(100, Some(100), 7) == Some([Page(1), Ellipsis, Page(96), Page(97), Page(98), Page(99), Page(100)])
  {
    var starts := [Page(1), Page(2), Page(3), Page(4), Page(5), Ellipsis, Page(100)];
    var middle := [Page(1), Ellipsis, Page(49), Page(50), Page(51), Ellipsis, Page(100)];
    var ends := [Page(1), Ellipsis, Page(96), Page(97), Page(98), Page(99), Page(100)];
    forall i | 0 <= i < 7
      ensures PagesArr(1, Some(100), 7).value[i] == starts[i]
      ensures PagesArr(50, Some(100), 7).value[i] == middle[i]
      ensures PagesArr(100, Some(100), 7).value[i] == ends[i]
    {
      TruncatedAt(1, 100, 7, i);
      TruncatedAt(50, 100, 7, i);
      TruncatedAt(100, 100, 7, i);
    }
    TruncatedAt(1, 100, 7, 0);
    TruncatedAt(50, 100, 7, 0);
    TruncatedAt(100, 100, 7, 0);
    assert PagesArr(1, Some(100), 7).value == starts;
    assert PagesArr(50, Some(100), 7).value == middle;
    assert PagesArr(100, Some(100), 7).value == ends;
  }
}
