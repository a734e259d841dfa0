/**
 * The navigation state machine of the pagination control: the text of the
 * pending page (`$currentPageNumber`), a single debounce slot (`timer`) and
 * the calls made to the owner's `onPageChange` callback, driven by
 * `onPageChange`, `toPre`, `toNext`, the page buttons and the input field.
 * Timers do not run here: a scheduled notification waits in the slot until
 * `Fire` delivers it.
 */
module Navigation {
  import opened Wrappers
  import opened Coercion
  import opened PageWindow
  import opened Component

  /** What `onPageChange` is called with: a number, NaN (from `+'...'`), or the input's text. */
  datatype PageArg = Number(n: int) | NaN | Text(s: string)

  /** `pageNumber + ''`; read back with unary plus it gives the value the callback receives. */
  function ArgText(a: PageArg): (t: string)
    ensures ToNumber(t) == ArgValue(a)
    ensures a.Number? ==> t != ""
  {
    match a
    case Number(n) => IntToString(n)
    case NaN => "NaN"
    case Text(s) => s
  }

  /** Whether `pageNumber` is truthy: a nonzero number or a nonempty string. */
  predicate Truthy(a: PageArg)
    ensures Truthy(a) ==> ArgText(a) != ""
    ensures Truthy(a) && !a.Text? ==> ArgValue(a) != 0
    ensures !Truthy(a) <==> a.NaN? || a == Number(0) || a == Text("")
  {
    match a
    case Number(n) => n != 0
    case NaN => false
    case Text(s) => s != ""
  }

  /** `+pageNumber`, the value handed to the callback. */
  function ArgValue(a: PageArg): (v: int)
    ensures a.Number? ==> v == a.n
    ensures a.Text? && AllDigits(a.s) ==> v == DigitsValue(a.s)
    ensures a.NaN? ==> v == 0
  {
    match a
    case Number(n) => n
    case NaN => 0
    case Text(s) => ToNumber(s)
  }

  /** A page button's click handler argument, `+val`: the page, or NaN for '...'. */
  function LabelArg(l: Label): (a: PageArg)
    ensures l.Page? ==> a == Number(l.n) && (Truthy(a) <==> l.n != 0)
    ensures l.Ellipsis? ==> !Truthy(a) && ArgText(a) == "NaN"
  {
    match l
    case Page(n) => Number(n)
    case Ellipsis => NaN
  }

  /** Notifications are delayed: there is a callback and the delay is not 0. */
  predicate Debounced(p: Props) {
    p.hasOnPageChange && DebounceTime(p) != 0
  }

  /**
   * The navigation state: the text, the page waiting in the debounce slot,
   * and the pages the callback has been called with so far.
   */
  datatype NavState = NavState(text: string, timer: Option<int>, emitted: seq<int>)

  /** Only a debounced control ever has a notification waiting. */
  predicate SlotDiscipline(p: Props, s: NavState) {
    !Debounced(p) ==> s.timer.None?
  }

  /** The state a new component starts in: the prop's page (or 1) as text. */
  function Initial(p: Props): (s: NavState)
    ensures SlotDiscipline(p, s) && s.timer.None? && s.emitted == []
    ensures CurrentPageNumber(p, s.text) == Or(p.currentPageNumber, 1)
  {
    var start := Or(p.currentPageNumber, 1);
    CurrentPageOfWrittenNumber(p, start);
    NavState(IntToString(start), None, [])
  }

  /** A step notifies at most once, and only with the given value. */
  predicate NotifiesAtMost(s: NavState, r: NavState, v: int) {
    (r.timer == s.timer || r.timer == Some(v))
    && (r.emitted == s.emitted || r.emitted == s.emitted + [v])
  }

  /**
   * `onPageChange(pageNumber)`: nothing happens when the text already reads
   * `pageNumber + ''`; otherwise the text becomes that, and a truthy page
   * is either scheduled (replacing what waits in the slot) or, without
   * debouncing, delivered at once.
   */
  function Change(p: Props, s: NavState, a: PageArg): (r: NavState)
    ensures ArgText(a) == s.text ==> r == s
    ensures ArgText(a) != s.text ==> r.text == ArgText(a)
    ensures !(p.hasOnPageChange && Truthy(a)) ==> r.timer == s.timer && r.emitted == s.emitted
    ensures NotifiesAtMost(s, r, ArgValue(a))
    ensures Debounced(p) ==> r.emitted == s.emitted
    ensures !Debounced(p) ==> r.timer == s.timer
    ensures SlotDiscipline(p, s) ==> SlotDiscipline(p, r)
  {
    if s.text == ArgText(a) then s
    else if p.hasOnPageChange && Truthy(a) then
      if DebounceTime(p) != 0 then NavState(ArgText(a), Some(ArgValue(a)), s.emitted)
      else NavState(ArgText(a), s.timer, s.emitted + [ArgValue(a)])
    else NavState(ArgText(a), s.timer, s.emitted)
  }

  /** The debounce timer elapses: what waits in the slot is delivered, once. */
  function FireTimer(s: NavState): (r: NavState)
    ensures r.text == s.text && r.timer.None?
    ensures s.timer.Some? ==> r.emitted == s.emitted + [s.timer.value]
    ensures s.timer.None? ==> r == s
  {
    if s.timer.Some? then NavState(s.text, None, s.emitted + [s.timer.value]) else s
  }

  /** Several calls of `onPageChange` in a row, with no timer elapsing in between. */
  function ChangeAll(p: Props, s: NavState, args: seq<PageArg>): NavState
    decreases |args|
  {
    if args == [] then s else Change(p, ChangeAll(p, s, args[..|args| - 1]), args[|args| - 1])
  }

  /** `toPre`: one page back, never below page 1. */
  function PreTarget(p: Props, text: string): (page: int)
    ensures page >= 1
    ensures !Disabled(p, text).pre ==> page == CurrentPageNumber(p, text) - 1
    ensures Disabled(p, text).pre ==> page == 1
  {
    var back := CurrentPageNumber(p, text) - 1;
    if back < 1 then 1 else back
  }

  /**
   * `toNext`: one page on, never beyond the page count when there is one;
   * without a page count only when the next button is enabled.
   */
  function NextTarget(p: Props, text: string): (page: Option<int>)
    ensures RenderModeOf(p) == HasPage ==> page.Some? && page.value <= PageCount(p)
    ensures RenderModeOf(p) == HasPage ==>
              (page.value == CurrentPageNumber(p, text) + 1 <==> !Disabled(p, text).next)
    ensures RenderModeOf(p) == HasPage && Disabled(p, text).next ==> page.value == PageCount(p)
    ensures RenderModeOf(p) == NoPage ==> (page.Some? <==> !Disabled(p, text).next)
    ensures RenderModeOf(p) == NoPage && page.Some? ==> page.value == CurrentPageNumber(p, text) + 1
  {
    var current := CurrentPageNumber(p, text);
    if RenderModeOf(p) != NoPage then
      Some(if PageCount(p) < current + 1 then PageCount(p) else current + 1)
    else if p.pageSize <= CurrentPageSize(p) then Some(current + 1)
    else None
  }

  /** Repeating a call changes nothing: the second finds its own text already in place. */
  lemma ChangeIdempotent(p: Props, s: NavState, a: PageArg)
    ensures Change(p, Change(p, s, a), a) == Change(p, s, a)
  {
  }

  /** Clicking '...' never notifies: NaN is falsy, only the text becomes "NaN". */
  lemma EllipsisClickSilent(p: Props, s: NavState)
    ensures var r := Change(p, s, LabelArg(Ellipsis));
      r.timer == s.timer && r.emitted == s.emitted && r.text == "NaN"
  {
  }

  /** A number written to the text is what the current page then reads. */
  lemma ChangeSetsCurrentPage(p: Props, s: NavState, n: int)
    requires n != 0
    ensures CurrentPageNumber(p, Change(p, s, Number(n)).text) == n
  {
  }

  /**
   * Text that went through the formatter, with a page count of at least 1,
   * only ever notifies a page between 1 and the page count.
   */
  lemma FormattedInputNotifiesValidPage(p: Props, s: NavState, val: string)
    requires RenderModeOf(p) == HasPage && PageCount(p) >= 1
    ensures var r := Change(p, s, Text(PreFormat(p, val)));
      && (r.timer == s.timer || (r.timer.Some? && 1 <= r.timer.value <= PageCount(p)))
      && (r.emitted == s.emitted || (|r.emitted| == |s.emitted| + 1 && 1 <= r.emitted[|s.emitted|] <= PageCount(p)))
  {
  }

  /**
   * Typed text is truthy even when it is "0": without a page count the
   * formatter keeps "0", and the callback is called with page 0.
   */
  lemma TypedZeroNotifiesZero(p: Props, s: NavState)
    requires RenderModeOf(p) == NoPage && p.hasOnPageChange && DebounceTime(p) == 0
    requires s.text != "0"
    ensures PreFormat(p, "0") == "0"
    ensures Change(p, s, Text(PreFormat(p, "0"))).emitted == s.emitted + [0]
  {
  }

  /** While debounced, a burst of calls delivers nothing before the timer fires. */
  lemma {:induction false} DebouncedBurstDeliversNothing(p: Props, s: NavState, args: seq<PageArg>)
    requires Debounced(p)
    ensures ChangeAll(p, s, args).emitted == s.emitted
    decreases |args|
  {
    if args != [] {
      DebouncedBurstDeliversNothing(p, s, args[..|args| - 1]);
    }
  }

  /**
   * Last write wins: when the last call of a debounced burst changes the
   * text to a truthy page, that page is the one waiting, and firing the
   * timer delivers exactly it, once.
   */
  lemma DebouncedLastWriteWins(p: Props, s: NavState, args: seq<PageArg>)
    requires Debounced(p) && args != []
    requires var last := args[|args| - 1];
      Truthy(last) && ArgText(last) != ChangeAll(p, s, args[..|args| - 1]).text
    ensures ChangeAll(p, s, args).timer == Some(ArgValue(args[|args| - 1]))
    ensures FireTimer(ChangeAll(p, s, args)).emitted == s.emitted + [ArgValue(args[|args| - 1])]
  {
    DebouncedBurstDeliversNothing(p, s, args);
  }

  /** Without debouncing a page is delivered at once, and nothing is left waiting. */
  lemma UndebouncedDeliversAtOnce(p: Props, s: NavState, a: PageArg)
    requires p.hasOnPageChange && DebounceTime(p) == 0 && SlotDiscipline(p, s)
    requires Truthy(a) && ArgText(a) != s.text
    ensures Change(p, s, a).emitted == s.emitted + [ArgValue(a)]
    ensures Change(p, s, a).timer.None?
  {
  }

  /** The component instance: its text state, its timer slot and the callback's record. */
  class Paginator {
    const props: Props
    var text: string
    var timer: Option<int>
    var emitted: seq<int>

    ghost predicate Valid()
      reads this
    {
      SlotDiscipline(props, State())
    }

    function State(): NavState
      reads this
    {
      NavState(text, timer, emitted)
    }

    constructor (p: Props)
      ensures props == p && State() == Initial(p) && Valid()
    {
      props := p;
      text := IntToString(Or(p.currentPageNumber, 1));
      timer := None;
      emitted := [];
    }

    method OnPageChange(pageNumber: PageArg)
      requires Valid()
      modifies this
      ensures Valid()
      ensures State() == Change(props, old(State()), pageNumber)
    {
      var newText := ArgText(pageNumber);
      if text != newText {
        text := newText;
        if props.hasOnPageChange && Truthy(pageNumber) {
          if DebounceTime(props) != 0 {
            timer := Some(ArgValue(pageNumber));
          } else {
            emitted := emitted + [ArgValue(pageNumber)];
          }
        }
      }
    }

    method ToPre()
      requires Valid()
      modifies this
      ensures Valid()
      ensures State() == Change(props, old(State()), Number(PreTarget(props, old(text))))
      ensures NotifiesAtMost(old(State()), State(), PreTarget(props, old(text)))
    {
      var current := CurrentPageNumber(props, text);
      OnPageChange(Number(if 1 > current - 1 then 1 else current - 1));
    }

    method ToNext()
      requires Valid()
      modifies this
      ensures Valid()
      ensures NextTarget(props, old(text)).None? ==> State() == old(State())
      ensures NextTarget(props, old(text)).Some? ==>
                State() == Change(props, old(State()), Number(NextTarget(props, old(text)).value))
    {
      var current := CurrentPageNumber(props, text);
      if RenderModeOf(props) != NoPage {
        var count := PageCount(props);
        OnPageChange(Number(if count < current + 1 then count else current + 1));
      } else if props.pageSize <= CurrentPageSize(props) {
        OnPageChange(Number(current + 1));
      }
    }

    /** A click on a numbered button or on a '...' marker. */
    method ClickLabel(l: Label)
      requires Valid()
      modifies this
      ensures Valid()
      ensures State() == Change(props, old(State()), LabelArg(l))
    {
      OnPageChange(LabelArg(l));
    }

    /** The input widget reports its (formatted) text. */
    method Input(value: string)
      requires Valid()
      modifies this
      ensures Valid()
      ensures State() == Change(props, old(State()), Text(value))
    {
      OnPageChange(Text(value));
    }

    /** The debounce delay elapses. */
    method Fire()
      requires Valid()
      modifies this
      ensures Valid()
      ensures State() == FireTimer(old(State()))
    {
      if timer.Some? {
        emitted := emitted + [timer.value];
        timer := None;
      }
    }
  }
}
