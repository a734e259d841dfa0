/**
 * The pagination component's props and the values it derives from them
 * (its getters), together with the text it keeps as state: render mode,
 * fallbacks, the current page, the disabled and hidden flags, the page
 * window it shows, the input formatter, and the unused props-to-state hook.
 */
module Component {
  import opened Wrappers
  import opened Coercion
  import opened PageWindow

  datatype RenderMode = HasPage | NoPage

  /**
   * The props a parent passes. `onPageChange` is a callback; only whether it
   * is given matters here, its calls are recorded by the navigation model.
   */
  datatype Props = Props(
    pageSize: int,
    currentPageNumber: Option<int>,
    pageCount: Option<int>,
    currentPageSize: Option<int>,
    maxPageBtn: Option<int>,
    debounceTime: Option<int>,
    hasOnPageChange: bool)

  /** JavaScript `x || fallback` for an optional number: undefined and 0 are falsy. */
  function Or(x: Option<int>, fallback: int): int {
    if x.Some? && x.value != 0 then x.value else fallback
  }

  /** Numbered buttons are shown exactly when a page count is given, even 0. */
  function RenderModeOf(p: Props): (mode: RenderMode)
    ensures mode == HasPage <==> p.pageCount.Some?
  {
    if p.pageCount.Some? then HasPage else NoPage
  }

  /** The size of the current page, falling back to pageSize when undefined or 0. */
  function CurrentPageSize(p: Props): (size: int)
    ensures p.currentPageSize.Some? && p.currentPageSize.value != 0 ==> size == p.currentPageSize.value
    ensures p.currentPageSize.None? || p.currentPageSize == Some(0) ==> size == p.pageSize
  {
    Or(p.currentPageSize, p.pageSize)
  }

  /** The page count, 0 when undefined. */
  function PageCount(p: Props): (count: int)
    ensures count == 0 <==> p.pageCount.None? || p.pageCount == Some(0)
    ensures count != 0 ==> p.pageCount == Some(count)
  {
    Or(p.pageCount, 0)
  }

  /** The button budget: 7 when undefined or 0, otherwise the prop as given (no lower bound). */
  function MaxPageBtn(p: Props): (budget: int)
    ensures budget != 0
    ensures p.maxPageBtn.None? || p.maxPageBtn == Some(0) ==> budget == 7
    ensures p.maxPageBtn.Some? && p.maxPageBtn.value != 0 ==> budget == p.maxPageBtn.value
  {
    Or(p.maxPageBtn, 7)
  }

  /** The debounce delay: 500 only when undefined, so an explicit 0 switches debouncing off. */
  function DebounceTime(p: Props): (delay: int)
    ensures delay == 0 <==> p.debounceTime == Some(0)
    ensures p.debounceTime.None? ==> delay == 500
    ensures p.debounceTime.Some? ==> delay == p.debounceTime.value
  {
    if p.debounceTime.Some? then p.debounceTime.value else 500
  }

  /**
   * The current page: the number in the text if it is neither 0 nor
   * invalid, else the prop if it is neither undefined nor 0, else 1; never 0.
   */
  function CurrentPageNumber(p: Props, text: string): (page: int)
    ensures page != 0
    ensures ToNumber(text) != 0 ==> page == ToNumber(text)
    ensures ToNumber(text) == 0 && p.currentPageNumber.Some? && p.currentPageNumber.value != 0 ==>
              page == p.currentPageNumber.value
    ensures ToNumber(text) == 0 && (p.currentPageNumber.None? || p.currentPageNumber == Some(0)) ==> page == 1
  {
    Or(Some(ToNumber(text)), Or(p.currentPageNumber, 1))
  }

  /** The text a number is written back as is read again as that number. */
  lemma CurrentPageOfWrittenNumber(p: Props, n: int)
    requires n != 0
    ensures CurrentPageNumber(p, IntToString(n)) == n
  {
  }

  datatype Flags = Flags(pre: bool, next: bool)

  /**
   * The previous button is disabled on page 1 or below; the next button on
   * the last page or beyond, or, without a page count, when the current page
   * is not full.
   */
  function Disabled(p: Props, text: string): (flags: Flags)
    ensures flags.pre <==> CurrentPageNumber(p, text) <= 1
    ensures RenderModeOf(p) == NoPage ==> (flags.next <==> CurrentPageSize(p) < p.pageSize)
    ensures RenderModeOf(p) == HasPage ==> (flags.next <==> PageCount(p) <= CurrentPageNumber(p, text))
  {
    var current := CurrentPageNumber(p, text);
    Flags(
      current <= 1,
      if RenderModeOf(p) == NoPage then p.pageSize > CurrentPageSize(p) else current >= PageCount(p))
  }

  /** The whole control is hidden when there are no pages, or no rows on the current page. */
  function Hide(p: Props): (hidden: bool)
    ensures RenderModeOf(p) == NoPage ==> (hidden <==> CurrentPageSize(p) <= 0)
    ensures RenderModeOf(p) == HasPage ==> (hidden <==> PageCount(p) <= 0)
  {
    if RenderModeOf(p) == NoPage then CurrentPageSize(p) <= 0 else PageCount(p) <= 0
  }

  /** The labels of the numbered buttons, `None` where building them throws. */
  function Window(p: Props, text: string): (w: Option<seq<Label>>)
    ensures RenderModeOf(p) == NoPage ==> w == Some([])
  {
    PagesArr(CurrentPageNumber(p, text), p.pageCount, MaxPageBtn(p))
  }

  /**
   * With a page count that is not negative and a budget of at least 4, the
   * control is hidden exactly when there are no numbered buttons.
   */
  lemma HiddenIffNoButtons(p: Props, text: string)
    requires RenderModeOf(p) == HasPage && p.pageCount.value >= 0
    requires MaxPageBtn(p) >= 4
    ensures Window(p, text).Some?
    ensures Hide(p) <==> Window(p, text).value == []
  {
  }

  /**
   * The active page button: with a budget of at least 5 (the default is 7)
   * and a current page between 1 and the page count, the current page's
   * button is in the window exactly once.
   */
  lemma ActiveButtonShown(p: Props, text: string)
    requires RenderModeOf(p) == HasPage && MaxPageBtn(p) >= 5
    requires 1 <= CurrentPageNumber(p, text) <= PageCount(p)
    ensures Window(p, text).Some?
    ensures var w := Window(p, text).value;
      exists i :: 0 <= i < |w| && w[i] == Page(CurrentPageNumber(p, text))
  {
    ShowsCurrent(CurrentPageNumber(p, text), PageCount(p), MaxPageBtn(p));
  }

  /**
   * `preFormatter`, applied by the input widget to typed text: keep the
   * digits; with a page count, a value of 0 (or no digits) becomes "" and a
   * value above the page count becomes the page count.
   */
  function PreFormat(p: Props, val: string): (r: string)
    ensures RenderModeOf(p) == NoPage ==> r == KeepDigits(val)
    ensures RenderModeOf(p) == HasPage ==> (r == "" <==> DigitsValue(KeepDigits(val)) == 0)
    ensures PageCount(p) >= 0 ==> AllDigits(r)
    ensures RenderModeOf(p) == HasPage && PageCount(p) >= 1 && r != "" ==>
              AllDigits(r) && 1 <= DigitsValue(r) <= PageCount(p)
    ensures RenderModeOf(p) == HasPage && 0 < DigitsValue(KeepDigits(val)) <= PageCount(p) ==>
              r == KeepDigits(val)
    ensures RenderModeOf(p) == HasPage && 0 < DigitsValue(KeepDigits(val)) && PageCount(p) < DigitsValue(KeepDigits(val)) ==>
              r == IntToString(PageCount(p))
  {
    var page := KeepDigits(val);
    if RenderModeOf(p) != NoPage then
      var n := ToNumber(page);
      if n <= 0 then "" else if n > PageCount(p) then IntToString(PageCount(p)) else page
    else page
  }

  /** Formatting formatted text changes nothing, unless a page count of 0 or less is given. */
  lemma PreFormatIdempotent(p: Props, val: string)
    requires RenderModeOf(p) == NoPage || PageCount(p) >= 1
    ensures PreFormat(p, PreFormat(p, val)) == PreFormat(p, val)
  {
  }

  /** With a page count of 0, any positive value is written as "0", which formats again to "". */
  lemma PreFormatZeroPageCount(p: Props, val: string)
    requires p.pageCount == Some(0)
    requires DigitsValue(KeepDigits(val)) > 0
    ensures PreFormat(p, val) == "0"
    ensures PreFormat(p, PreFormat(p, val)) == ""
  {
    assert KeepDigits("0") == "0";
  }

  /**
   * `getDerivedStateFroProps`: when the text holds a nonzero number that
   * differs from the prop, the text is reset to the prop (`undefined` when
   * the prop is missing). React never calls it, because of its name.
   */
  function GetDerivedStateFroProps(p: Props, text: string): (update: Option<string>)
    ensures ToNumber(text) == 0 ==> update.None?
    ensures p.currentPageNumber == Some(ToNumber(text)) ==> update.None?
    ensures ToNumber(text) != 0 && p.currentPageNumber != Some(ToNumber(text)) ==> update.Some?
    ensures update.Some? && p.currentPageNumber.Some? ==> ToNumber(update.value) == p.currentPageNumber.value
    ensures update.Some? && p.currentPageNumber.None? ==> update.value == "undefined"
  {
    var page := ToNumber(text);
    if page != 0 && p.currentPageNumber != Some(page) then
      Some(if p.currentPageNumber.Some? then IntToString(p.currentPageNumber.value) else "undefined")
    else None
  }
}
