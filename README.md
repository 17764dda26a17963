# Financial dashboard: selection-synchronised table and charts

This project models the live `FinancialDashboardSync` component of the web
dashboard (`apps/web/app/dashboard/_components/table.tsx`, lines 382-768) and
proves properties of the model. Under its markup, the component is a small
state machine. It keeps a paginated row table and two per-country charts (GBP
bars, USD line) consistent with a selection of countries. The selection is
persisted as a comma-joined string.

The modules follow the component's parts:

- `Selection` (`selection.dfy`) covers the persisted string and its parsed list
  (`selectedList`), `split(",")` and `join(",")`, and the string
  `toggleSelection` writes. `setSelectedRange` writes `Join` of its values; it is
  the method `FinancialDashboard.SetSelectedRange`.
- `Aggregation` (`aggregation.dfy`) holds the `Row` record and `chartBase`. That
  is the `reduce` that groups rows by country in first-seen order and sums both
  rates. It is modelled as the method `ChartBase` with a loop, proved against
  the functions `Categories` and `Sum`.
- `Interactions` (`interactions.dfy`) covers brush resolution, the click target
  and the highlight rule used by both charts and the table.
- `Dashboard` (`dashboard.dfy`) holds the class `FinancialDashboard`. Its fields
  are `selected`, `data`, `page`, `nextPage`, `loading` and `error`, as in the
  component. Its methods are the page loader, the selection actions, the
  Reset and Refresh buttons, the chart and row handlers and the scroll guard.
- `Lists` (`lists.dfy`) and `Wrappers` (`wrappers.dfy`) hold the sequence
  helpers (`filter` and first-seen de-duplication) and `Option`. `IndexOf`
  and `Count` there are specification helpers, used to state first-seen order
  and toggle parity; the component calls neither.

`fetchPage` is asynchronous, so it is modelled in two steps:

- `FetchPage` is the part before the `await`. It sets `loading`, clears
  `error`, and returns a `Request`: the page, the replace flag and the
  selection list its closure captured.
- `CompleteFetch` is the part after the `await`. It takes that request and the
  data source's answer (`Fetched(items)` or `Failed(message)`).

Every action returns the requests it started. The effect on `selected`
(`useEffect(..., [selected])`) is part of `ApplySelection`. When the string
really changes, it starts a replace-load of page 1.

Rates are whole pence and cents, so every sum is exact. A category index outside
the axis reads as `undefined` in the component. Here it is the empty category
`""`, which every consumer treats the same way (`filter(Boolean)`, `if (c)`,
`?? ""`).

Five points about the code that the model follows as written:

- The code never sets `nextPage` to null. Every successful load sets it to the
  loaded page plus one. `FinancialDashboard.Valid` records that the cursor
  never reaches the terminal marker.
- A replace-load does not empty the rows when it starts. The rows are replaced
  when the load completes.
- No load generation discards a stale result. Any completion is applied when it
  arrives.
- Reset issues two replace-loads when the selection was not empty. The first is
  filtered by the selection as it was before the reset (the button's closure).
  The second comes from the selection effect and is unfiltered.
- `loading` is one flag, and any completion clears it (the `finally` block).
  Loads can overlap: Reset starts two, and neither Refresh nor a selection
  change checks `loading`. When they do, the first completion lets the scroll
  guard fire while another load is still pending, and a replace-load may
  complete after the selection it captured has changed.

## Model

| member | source | states |
|---|---|---|
| `Selection.Split` | apps/web/app/dashboard/_components/table.tsx:450 | `split(",")` yields at least one piece, no piece holds a comma, and joining the pieces with commas gives back the string |
| `Selection.Parse` | apps/web/app/dashboard/_components/table.tsx:449-452 | the selected list of a persisted string: no entry is empty or holds a comma, and the empty string gives the empty list |
| `Selection.SplitJoin` | apps/web/app/dashboard/_components/table.tsx:450 | splitting undoes joining for a non-empty list of comma-free parts |
| `Selection.ParseJoin` | apps/web/app/dashboard/_components/table.tsx:537 | parsing a comma-joined list of comma-free parts gives back its non-empty parts in order |
| `Selection.JoinSeparators` | apps/web/app/dashboard/_components/table.tsx:537 | `Join` (`join(",")`) of comma-free parts writes exactly one separator between neighbours: the result holds one fewer separator than there are parts, and none for no parts |
| `Selection.ParseJoinKeys` | apps/web/app/dashboard/_components/table.tsx:540-542 | parsing the string `setSelectedRange(vals)` writes gives exactly `vals` when every entry is non-empty and comma-free |
| `Selection.ParseNormalizes` | apps/web/app/dashboard/_components/table.tsx:449-452 | re-joining the parsed list is a normal form: parsing it again gives the same list |
| `Selection.Toggle` | apps/web/app/dashboard/_components/table.tsx:533-536 | `v` is in the result iff it was not in the list, every other key keeps its membership, and an absent `v` is appended at the end |
| `Selection.ToggleSelected` | apps/web/app/dashboard/_components/table.tsx:532-538 | the string `toggleSelection(v)` writes parses back to the toggled list, for every non-empty comma-free key `v` |
| `Lists.Filter` | apps/web/app/dashboard/_components/table.tsx:535 | the kept elements are exactly those of the input that pass the test, and there are no more of them than input elements |
| `Lists.FilterConcat` | apps/web/app/dashboard/_components/table.tsx:535 | filtering distributes over concatenation, so removal keeps the other entries in their original order |
| `Selection.ToggleSelectedMembership` | apps/web/app/dashboard/_components/table.tsx:532-538 | after `toggleSelection(v)` for a non-empty comma-free `v`, `v` is selected iff it was not, and every other key keeps its status |
| `Selection.ToggleTwice` | apps/web/app/dashboard/_components/table.tsx:532-538 | toggling an unselected non-empty comma-free key twice restores the selection, in its re-joined normal form |
| `Selection.ToggleEmptyKey` | apps/web/app/dashboard/_components/table.tsx:532-538 | toggling the empty key leaves the parsed selection unchanged |
| `Selection.TogglesFlip` | apps/web/app/dashboard/_components/table.tsx:532-538 | across a sequence of toggles of keys, a key's status flips iff it was toggled an odd number of times (running parity) |
| `Selection.TogglesParity` | apps/web/app/dashboard/_components/table.tsx:532-538 | the same with the parity given by counting the toggles of the key |
| `Selection.TogglesFromEmpty` | apps/web/app/dashboard/_components/table.tsx:532-538 | from the empty selection, a key is selected iff it was toggled an odd number of times |
| `Aggregation.ChartBase` | apps/web/app/dashboard/_components/table.tsx:546-566 | the categories are the first-seen distinct countries of the rows, the two value lists have the same length as the categories, and each value is the sum of that rate over the rows of that category |
| `Aggregation.GroupByCountry` | apps/web/app/dashboard/_components/table.tsx:550-558 | after the `reduce` over all rows, the accumulator maps exactly the countries of the rows to their GBP and USD sums, and its key order is the countries in first-seen order |
| `Aggregation.Accumulate` | apps/web/app/dashboard/_components/table.tsx:550-557 | the reducer creates a zero entry for a country not yet in the accumulator (appending it to the key order), adds the row's two rates to that country's entry and leaves every other entry and the key order otherwise unchanged |
| `Aggregation.GroupRow` | apps/web/app/dashboard/_components/table.tsx:550-558 | one step of the `reduce` (create the country's entry if new, add the row's rates) keeps the accumulator equal to the per-country sums over the rows seen so far, with keys in insertion order |
| `Aggregation.CategoriesExactlyOnce` | apps/web/app/dashboard/_components/table.tsx:547-560 | the categories are exactly the countries occurring in the rows, with no repeats, and they are empty iff the rows are |
| `Lists.DistinctFirstSeenOrder` | apps/web/app/dashboard/_components/table.tsx:560 | de-duplication lists elements in the order of their first occurrence |
| `Aggregation.CategoriesFirstSeen` | apps/web/app/dashboard/_components/table.tsx:550-560 | an earlier category's country occurs first in the rows before a later category's |
| `Aggregation.SumConcat` | apps/web/app/dashboard/_components/table.tsx:554-555 | the per-country sum over appended rows is the sum of the two parts' sums |
| `Aggregation.SumPermutation` | apps/web/app/dashboard/_components/table.tsx:554-555 | the per-country sums do not depend on the order of the rows |
| `Aggregation.CategoryTotalsAgree` | apps/web/app/dashboard/_components/table.tsx:550-563 | summing the values over all categories gives the total of that rate over all rows |
| `Interactions.ResolveIndexes` | apps/web/app/dashboard/_components/table.tsx:623-625 | every resolved country is a non-empty category, there are no more of them than indices, and every in-range index naming a non-empty category contributes its category |
| `Interactions.CategoryAt` | apps/web/app/dashboard/_components/table.tsx:587 | `categories[i] ?? ""` is the category at an on-axis index and "" elsewhere, and a non-empty result is one of the categories |
| `Interactions.ResolveBrush` | apps/web/app/dashboard/_components/table.tsx:621-625 | a missing payload selects nothing; every selected country is a non-empty category; every brushed on-axis index that names a non-empty category contributes it |
| `Interactions.ResolveConcat` | apps/web/app/dashboard/_components/table.tsx:623-625 | indices resolve one by one, so the resolved list follows the brushed index order |
| `Interactions.ResolveSingle` | apps/web/app/dashboard/_components/table.tsx:621-625 | through `BrushedIndexes`, a scalar index is the one-element list, and it resolves to its category only when it is in range and that category is non-empty |
| `Interactions.ResolveMissing` | apps/web/app/dashboard/_components/table.tsx:621 | a missing brush payload (`?? []`, the `None` case of `BrushedIndexes`) resolves to nothing |
| `Interactions.BrushExample` | apps/web/app/dashboard/_components/table.tsx:619-628 | brushing indices 0, 2 and 5 over six categories selects the first, third and sixth |
| `Interactions.ClickTarget` | apps/web/app/dashboard/_components/table.tsx:640-643 | a click has a target iff the index is in range and its category is non-empty, and the target is that category |
| `Interactions.IsActive` | apps/web/app/dashboard/_components/table.tsx:588 | `selectedList.includes(c)`: only a non-empty, comma-free key can be active, and nothing is active under the empty selection |
| `Interactions.InactiveOutsideAxis` | apps/web/app/dashboard/_components/table.tsx:586-589 | the empty category is never active, so a bar or line item outside the axis (where `Lookup` gives `undefined`) is always drawn inactive; on the axis a bar is active iff its category is selected |
| `Interactions.HighlightConsistent` | apps/web/app/dashboard/_components/table.tsx:586-611 | the bar rule (`categories[i] ?? ""` then `includes`, `BarActive`) and the line rule at lines 608-611 (`includes(categories[i] ?? "")`, `LineActive`) agree at every index, and agree with the row rule at line 733 (`RowActive`) for a row of that category |
| `Interactions.ToggleFlipsHighlight` | apps/web/app/dashboard/_components/table.tsx:733 | toggling a key flips its highlight and leaves every other category's highlight |
| `Dashboard.ServerFilter` | apps/web/app/dashboard/_components/table.tsx:480-483 | with an empty selection every item is kept; otherwise exactly the items whose country is selected are kept |
| `Dashboard.HasNextPage` | apps/web/app/dashboard/_components/table.tsx:501-503 | the truthiness test `if (nextPage)`: false for a missing cursor, true for any page number of at least 1 |
| `Dashboard.SelectionEffect` | apps/web/app/dashboard/_components/table.tsx:497-499 | the `[selected]` effect issues no load when the string is unchanged, and otherwise exactly one replace-load of page 1 filtered by the parsed new selection |
| `Dashboard.FilteredCategoriesSelected` | apps/web/app/dashboard/_components/table.tsx:481-485 | the rows a filtered load keeps all have countries in the filter that load captured, so after a filtered replace-load every chart category is in that filter (not necessarily the current selection, which may have changed while the load was pending; an append-load adds to rows loaded under an earlier filter) |
| `Dashboard.FinancialDashboard.constructor` | apps/web/app/dashboard/_components/table.tsx:434-446 | the initial state: the persisted selection, no rows, page 1, next page 1, not loading, no error |
| `Dashboard.FinancialDashboard.FetchPage` | apps/web/app/dashboard/_components/table.tsx:455-457 | a load sets `loading`, clears `error`, and captures the page, the replace flag and the current selection list |
| `Dashboard.FinancialDashboard.CompleteFetch` | apps/web/app/dashboard/_components/table.tsx:480-493 | on success the rows become the filtered items (replace) or the old rows followed by them (append), the page becomes the request's and the next page one more; on failure only the error is set; `loading` is false afterwards |
| `Dashboard.FinancialDashboard.Mount` | apps/web/app/dashboard/_components/table.tsx:497-499 | the first render issues a replace-load of page 1 with the persisted selection |
| `Dashboard.FinancialDashboard.ApplySelection` | apps/web/app/dashboard/_components/table.tsx:497-499 | writing the selection reloads page 1 with the new selection iff the string changed, and otherwise changes nothing else |
| `Dashboard.FinancialDashboard.ToggleSelection` | apps/web/app/dashboard/_components/table.tsx:532-538 | the selection becomes the toggled string, reloading iff it changed |
| `Dashboard.FinancialDashboard.SetSelectedRange` | apps/web/app/dashboard/_components/table.tsx:540-542 | the selection becomes exactly the joined values whatever it was before, parses back to them when they are keys, and a repeat call starts no load |
| `Dashboard.FinancialDashboard.Reset` | apps/web/app/dashboard/_components/table.tsx:701 | the selection becomes empty, and the loads are a replace-load of page 1 with the previous selection, then an unfiltered replace-load if the selection changed |
| `Dashboard.FinancialDashboard.Refresh` | apps/web/app/dashboard/_components/table.tsx:707 | a replace-load of page 1 with the selection untouched |
| `Dashboard.FinancialDashboard.LoadMore` | apps/web/app/dashboard/_components/table.tsx:501-503 | loads the next page for appending iff `nextPage` is truthy |
| `Dashboard.FinancialDashboard.OnSentinel` | apps/web/app/dashboard/_components/table.tsx:650-655 | a visibility event loads exactly when the sentinel intersects, `nextPage` is truthy and `loading` is false; it never loads while `loading` holds |
| `Dashboard.FinancialDashboard.OnBrushSelected` | apps/web/app/dashboard/_components/table.tsx:619-636 | a brush that resolves to nothing changes nothing; otherwise the selection becomes exactly the resolved countries in brushed order |
| `Dashboard.FinancialDashboard.OnChartClick` | apps/web/app/dashboard/_components/table.tsx:638-644 | a click toggles the clicked category if it exists and is non-empty, and otherwise changes nothing |
| `Dashboard.FinancialDashboard.OnRowClick` | apps/web/app/dashboard/_components/table.tsx:732 | a row click toggles that row's country |

## Left out

- The JSX, the Tailwind classes, the ECharts option objects and the TanStack table set-up (lines 506-529, 568-615, 661-767) are presentation and library bindings. Only the colour rules inside them are modelled (`BarActive`, `LineActive`, `RowActive`, `IsActive`).
- The URL persistence through `nuqs` is modelled as the plain field `selected`. `rangeMode` is stored but never read by the live logic, so it is not modelled.
- The IntersectionObserver attachment, its disconnection and the effect that re-subscribes it are left out. `OnSentinel` models the callback for one entry. When several entries arrive in one callback, they all read the same `loading` value from the closure. So two intersecting entries call `loadMore()` twice, and the same page is requested, and appended, twice. The model sets `loading` between entries instead, so where the model's second entry is refused, the source loads again.
- The mock data generator is not modelled: the 500 ms delay, the random rows and ids, and the page size of 20 that only feeds it. The fetched items are an input of `CompleteFetch`.
- Floating-point rates and the `toFixed(2)`/`parseFloat` rounding are left out. The rates are integers and the sums are exact.
- The unused `count` accumulator of `chartBase` is not modelled.
- `Object.keys` lists integer-like keys before others, and keys such as `constructor` are inherited from the object prototype. Country names are assumed to be neither, so first-seen order holds.
- The component does not discard stale fetches, and the model does not either. `CompleteFetch` applies whatever completes.
- The `try`/`catch` around the brush handler is left out, because nothing in the modelled handler can throw.
- `apps/web/components/multi-cards.tsx` is not part of this model. It is a view switcher and loading skeleton.
- The commented-out earlier component (lines 1-380) is dead code and is not modelled.
