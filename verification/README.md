# react-pagination, modelled in Dafny

A model of the pagination control `ReactPagination` (`src/components/Index.tsx`)
without its React rendering. The control shows numbered page buttons with
'...' markers, previous and next buttons and a "go to" input, and calls the
owner's `onPageChange` callback, debounced, when the page changes.

The model has six modules:

- `Wrappers`: `Option`; `None` stands for JavaScript's `undefined`.
- `Coercion`: the JavaScript coercions the control relies on. These are
  `n + ''` (`IntToString`), unary `+s` (`ToNumber`) and the digit filter
  `replace(/[^\d]+/g, '')` (`KeepDigits`).
- `PageWindow`: the `pagesArr` getter (`PagesArr`). It returns `None` where
  the code would throw a RangeError, because it asks for `Array(n)` with a
  negative `n`. Its lemmas cover the three truncated regimes (near the start,
  near the end, centred).
- `MergeConfigs`: `mergeConfig`. It is a loop that fills an accumulator map
  key by key.
- `Component`: the props, the getters (`renderMode`, `currentPageSize`,
  `pageCount`, `maxPageBtn`, `currentPageNumber`, `debounceTime`),
  `disabled`, `hide`, `preFormatter` and `getDerivedStateFroProps`.
- `Navigation`: the state machine behind `onPageChange`, `toPre`, `toNext`,
  the button clicks and the input. Its parts:
  - `Change`, `FireTimer`, `PreTarget` and `NextTarget` are functions that
    specify the steps.
  - The class `Paginator` has the component's fields. `text` is
    `$currentPageNumber`. `timer` is the single debounce slot, holding the
    page that waits to be delivered. `emitted` records the callback's calls.
  - Its methods update these fields in place and are proved against the
    functions.

## Behaviour worth knowing

- `maxPageBtn` has no lower bound. An undefined value or 0 becomes 7, and any
  other value is used as given. Building the centred window throws for a
  budget below 4.
- `onPageChange` does not clamp. Only `toPre`, `toNext` and the formatter
  keep pages in range.
- For 100 pages, a budget of 7 and current page 50, the window is
  `[1, '...', 49, 50, 51, '...', 100]` (`PageWindow.DefaultBudgetExamples`).
- Typed text "0" is a non-empty string and so is truthy. Without a page count
  the formatter keeps it, and the callback is called with `+"0"`, which is 0
  (`Navigation.TypedZeroNotifiesZero`). A numeric 0 and NaN never reach the
  callback.
- The prev and next buttons are only styled as disabled; clicking them still
  runs `toPre` and `toNext`. `NextTarget` states what `toNext` then requests.
  With a page count this can be a step back: a current page above the page
  count requests the last page.
- `getDerivedStateFroProps` is never called by React, because its name is
  misspelled.

## Model

| member | source | states |
|---|---|---|
| `Coercion.IntToString` | src/components/Index.tsx:238 | the text of a number is never empty; for n >= 0 it is all digits, has no leading zero (unless it is "0") and denotes n; a negative number's text starts with '-' |
| `Coercion.IntToStringRoundTrip` | src/components/Index.tsx:173 | reading back the text of any integer with unary plus gives that integer |
| `Coercion.ToNumber` | src/components/Index.tsx:173 | unary plus on the control's strings: a digit string ("" included) denotes its value, '-' followed by digits the negated value; every other string gives 0 |
| `Coercion.KeepDigits` | src/components/Index.tsx:267 | the result is all digits, no longer than the input, and is the input itself when that is all digits |
| `Coercion.KeepDigitsCounts` | src/components/Index.tsx:267 | the result has every digit of the input as often as the input does, and no other character |
| `Coercion.KeepDigitsAppend` | src/components/Index.tsx:267 | the filter distributes over concatenation, so it keeps the digits in their order |
| `PageWindow.Reverse` | src/components/Index.tsx:193 | the reversal has the same length and position i holds the element from the other end |
| `PageWindow.PagesArr` | src/components/Index.tsx:176-204 | no page count or a count of 0 gives no buttons; a negative count always throws; a positive count gives min(pageCount, maxPageBtn) labels when pageCount <= maxPageBtn or maxPageBtn >= 4 |
| `PageWindow.FullRange` | src/components/Index.tsx:183-185 | when all pages fit, the window is exactly pages 1 to pageCount in order, with no '...' |
| `PageWindow.TruncatedAt` | src/components/Index.tsx:186-203 | the label at each position of a truncated window, for the near-start, near-end and centred regimes |
| `PageWindow.Truncated` | src/components/Index.tsx:186-203 | for maxPageBtn >= 4 and pageCount > maxPageBtn: the window has exactly maxPageBtn labels, starts with page 1 and ends with pageCount, and the two edge conditions never both hold; '...' sits exactly at the slots of its regime (one near an edge, two when centred); the numbers lie in [1, pageCount], strictly increase and are consecutive where adjacent; each '...' between two numbers skips at least one page |
| `PageWindow.ShowsCurrent` | src/components/Index.tsx:186-203 | when 1 <= current <= pageCount and (pageCount <= maxPageBtn or maxPageBtn >= 5), the current page's button appears exactly once |
| `PageWindow.DefaultBudgetExamples` | src/components/Index.tsx:176-204 | the windows for current pages 1, 50 and 100 of 100 with budget 7 |
| `MergeConfigs.MergeConfig` | src/components/Index.tsx:108-118 | with no partial configuration, the default unchanged; otherwise exactly the default's keys, each from the partial configuration unless undefined there; a partial configuration with nothing defined gives the default |
| `Component.RenderModeOf` | src/components/Index.tsx:137-141 | numbered mode iff a page count is given (0 included) |
| `Component.CurrentPageSize` | src/components/Index.tsx:143-145 | the prop when it is neither undefined nor 0, else pageSize |
| `Component.PageCount` | src/components/Index.tsx:147-149 | 0 exactly when the prop is undefined or 0, the prop otherwise |
| `Component.MaxPageBtn` | src/components/Index.tsx:168-170 | never 0: undefined or 0 gives 7, any other value is kept with no lower bound |
| `Component.DebounceTime` | src/components/Index.tsx:221-223 | falls back to 500 only when undefined, otherwise the prop; 0 (debounce off) exactly when the prop is 0 |
| `Component.CurrentPageNumber` | src/components/Index.tsx:172-174 | never page 0: the text's number when nonzero, else the prop when nonzero, else 1 |
| `Component.CurrentPageOfWrittenNumber` | src/components/Index.tsx:172-174 | a nonzero page written as text is read back as the current page |
| `Component.Disabled` | src/components/Index.tsx:206-214 | previous disabled iff current <= 1; next disabled iff current >= pageCount (numbered mode) or currentPageSize < pageSize (otherwise) |
| `Component.Hide` | src/components/Index.tsx:216-219 | hidden iff pageCount <= 0 (numbered mode) or currentPageSize <= 0 (otherwise) |
| `Component.Window` | src/components/Index.tsx:180 | without a page count there are no numbered buttons |
| `Component.HiddenIffNoButtons` | src/components/Index.tsx:216-219 | with a page count >= 0 and a budget >= 4, the control is hidden exactly when the window is empty |
| `Component.ActiveButtonShown` | src/components/Index.tsx:301-305 | with a budget >= 5 and a current page in [1, pageCount], the current page's button (the active one) is shown |
| `Component.PreFormat` | src/components/Index.tsx:266-273 | without a page count only non-digits are dropped; with one, the result is "" iff the digits denote 0, otherwise all digits and in [1, pageCount] (for pageCount >= 1), in-range digits are kept as typed, and a value above pageCount becomes pageCount + '' |
| `Component.PreFormatIdempotent` | src/components/Index.tsx:266-273 | formatting twice equals formatting once, without a page count or with pageCount >= 1 |
| `Component.PreFormatZeroPageCount` | src/components/Index.tsx:270 | with pageCount 0 any text whose digits denote a positive value becomes "0", which formats again to "", so idempotence needs pageCount >= 1 |
| `Component.GetDerivedStateFroProps` | src/components/Index.tsx:225-235 | an update happens exactly when the text holds a nonzero number that differs from the prop; the new text reads back as the prop, or is "undefined" when the prop is missing |
| `Navigation.ArgText` | src/components/Index.tsx:238 | the text written for a call is never empty for a number and reads back, with unary plus, as the value the callback would receive |
| `Navigation.Truthy` | src/components/Index.tsx:243 | falsy exactly for NaN, the number 0 and ""; a truthy argument writes non-empty text, and a truthy number never notifies 0 |
| `Navigation.ArgValue` | src/components/Index.tsx:247 | a number is passed on unchanged, a digit text as its value, NaN as 0 |
| `Navigation.LabelArg` | src/components/Index.tsx:307 | a page button passes its page, truthy unless 0; '...' passes NaN, which is falsy and writes "NaN" |
| `Navigation.Initial` | src/components/Index.tsx:130-135 | a new control has nothing pending or delivered, and its current page is the prop or 1 |
| `Navigation.Change` | src/components/Index.tsx:237-253 | no change when the text already reads pageNumber + ''; else the text becomes it; no notification unless there is a callback and a truthy page; at most one notification, carrying +pageNumber; debounced calls deliver nothing immediately, undebounced ones leave the slot alone; keeps the slot discipline |
| `Navigation.FireTimer` | src/components/Index.tsx:246-247 | the waiting page is delivered once and the slot is emptied; with nothing waiting, nothing changes |
| `Navigation.PreTarget` | src/components/Index.tsx:256 | never below 1; one page back iff the previous button is enabled, else page 1 |
| `Navigation.NextTarget` | src/components/Index.tsx:259-264 | with a page count, never above it, one page on iff the next button is enabled, else the last page; without one, requests current + 1 exactly when the next button is enabled |
| `Navigation.ChangeIdempotent` | src/components/Index.tsx:238-239 | repeating a call with the same page has no further effect, so it never notifies twice |
| `Navigation.EllipsisClickSilent` | src/components/Index.tsx:307 | clicking '...' passes NaN: the text becomes "NaN" and nothing is notified or cancelled |
| `Navigation.ChangeSetsCurrentPage` | src/components/Index.tsx:238-240 | after a call with a nonzero number, that number is the current page |
| `Navigation.FormattedInputNotifiesValidPage` | src/components/Index.tsx:266-273 | formatted input, with pageCount >= 1, only ever schedules or delivers a page in [1, pageCount] |
| `Navigation.TypedZeroNotifiesZero` | src/components/Index.tsx:243 | without a page count and without debouncing, typed "0" calls the callback with 0 |
| `Navigation.DebouncedBurstDeliversNothing` | src/components/Index.tsx:244-249 | while debounced, any sequence of calls delivers nothing before the timer fires |
| `Navigation.DebouncedLastWriteWins` | src/components/Index.tsx:245-249 | when the last call of a debounced burst schedules a page, that page waits in the slot and firing delivers exactly it, once |
| `Navigation.UndebouncedDeliversAtOnce` | src/components/Index.tsx:250 | with delay 0 a truthy change is delivered immediately and nothing waits |
| `Navigation.Paginator.constructor` | src/components/Index.tsx:130-135 | the initial state, with the slot discipline established |
| `Navigation.Paginator.OnPageChange` | src/components/Index.tsx:237-253 | the new text, slot and record are those `Change` gives, and the slot discipline is kept |
| `Navigation.Paginator.ToPre` | src/components/Index.tsx:255-257 | behaves as `onPageChange` with `PreTarget`, so it notifies only a page >= 1 |
| `Navigation.Paginator.ToNext` | src/components/Index.tsx:259-264 | does nothing when `NextTarget` requests nothing, else behaves as `onPageChange` with that page |
| `Navigation.Paginator.ClickLabel` | src/components/Index.tsx:301-311 | a button click behaves as `onPageChange` with `+val` |
| `Navigation.Paginator.Input` | src/components/Index.tsx:275-277 | a text change behaves as `onPageChange` with the text |
| `Navigation.Paginator.Fire` | src/components/Index.tsx:246-247 | the timer elapsing behaves as `FireTimer` |

## Left out

- Rendering is not modelled: the JSX markup, the CSS class strings and the
  `ReactInput` widget. The model only assumes the widget reports text through
  `input`, and applies the formatter as `preFormatter`. Its library is not
  part of this model.
- The `inputConfig` and `turnBtns` getters are not modelled. They only merge
  label defaults; `mergeConfig` itself is modelled.
- Real timers are not modelled. `setTimeout` and `clearTimeout` become the
  `timer` slot: scheduling replaces what waits there, and the explicit `Fire`
  step delivers it. Wall-clock time is not modelled.
- `setState` is modelled as synchronous; React may batch it.
- Props stay fixed for a component's lifetime (`props` is a `const`). Updates
  from the parent, which keep the text state, are not modelled.
- JavaScript numbers are modelled as unbounded integers. Not modelled:
  fractional props, NaN props, precision loss on long digit strings, and the
  exponent notation that `n + ''` uses from 1e21 on.
- `Coercion.ToNumber` covers only "", digit strings and '-' followed by
  digits, and gives 0 for every other string. JavaScript's unary plus reads
  more strings as numbers: surrounding whitespace (`" 5"`), a leading '+'
  (`"+5"`), decimals (`"5.0"`), exponents (`"1e1"`), hex, binary and octal
  prefixes (`"0x1f"`, `"0b11"`, `"0o17"`) and `"Infinity"`/`"-Infinity"`. It
  reads most of the rest as NaN. For those strings the model differs wherever `+s` is
  used: the current page (line 173), the comparison with the prop (line 231),
  the callback's argument (lines 247 and 250) and the page-count comparison
  (line 270). `Paginator.Input` accepts any text, so the difference reaches
  the model only through text the input widget delivers unformatted. The
  formatter lets only digits through, and the control itself writes only
  `n + ''` and "NaN".
- `Object.keys` order in `mergeConfig` is not modelled. A map has no order,
  and the result does not depend on it.
- The `console.log` in `getDerivedStateFroProps` is not modelled.
- `index.d.ts` only declares types.
- PageWindow.PagesArr: for pageCount > maxPageBtn with maxPageBtn < 4, the
  contract does not say whether the window throws; that depends on the
  regime. The body decides, as the code does.
- Coercion.KeepDigits: its own contract does not state which digits are
  kept. `Coercion.KeepDigitsCounts` states the counts and
  `Coercion.KeepDigitsAppend` the order.
