# Split Bill, modelled in Dafny

This project models the bill-splitting page of Split-Billv1, a one-page calculator. The user types a list of priced items and, optionally, the total they actually paid. The page then spreads that total over the items in proportion to each item's share of the nominal subtotal.

The model has three modules following the page's own structure, plus a module of worked examples:

- `ItemList` (`items.dfy`): the `Item` row and the list edits behind the "add row", "remove row" and "edit field" handlers. These are the `filter` and `map` in those handlers. It also covers the default two-row list and when row ids stay unique.
- `Calculator` (`calculator.dfy`): the proportional split (`calculateSplit`). This is the subtotal, the multiplier, the mapped result rows and the "Item" placeholder for blank names. It also has the summary values shown under the result: the difference, its percentage, the discount flag and the badge condition. `Split` returns `None` for the zero-subtotal case, where the handler returns early and keeps the previous result.
- `BillSession` (`session.dfy`): the page's `useState` variables as the fields of a `Session` class (`items`, `totalPaid`, `calculatedItems`, `isDarkMode`). Each handler is a `modifies this` method that says which fields it replaces and with what. `CalculateSplit` keeps the handler's early return. Its postcondition ties the new result to `Split`. The class invariant `Valid()` says the displayed result is either empty or has percentages summing to 100.
- `Scenarios` (`scenarios.dfy`): the coffee-and-tea bill, split with no total, with a surcharge and with a discount. Also a zero bill.

Prices and the paid total are exact `real`s, so the sums hold exactly. The page adds IEEE-754 doubles, so there they hold only up to rounding. `Array.reduce` is a left fold, and `Subtotal` folds from the left the same way. `SubtotalAppend` shows that the grouping of the additions does not change the value.

The code is more permissive than one might expect in two places. In both, the model follows the code:

- Prices are not required to be non-negative. A number input accepts negative values, and `calculateSplit` only refuses a subtotal of exactly zero. So `Split` and the sum lemmas hold for any non-zero subtotal. Only the bounds lemmas (`SplitBounds` and its helper `PriceAtMostSubtotal`) assume non-negative prices.
- `isDiscount` is `diff < 0`. When no total was entered and the subtotal is positive, `diff` is minus the subtotal, so the flag is true then. The badge is still hidden, because it also needs `totalPaid > 0` (`NoTotalHidesBadge`). In the initial and reset state the subtotal is 0 as well, so `diff` is 0 and the flag is false (`ResetShowsNoDiscount`).

The summary badge is drawn only inside the result panel, which appears while `calculatedItems` is non-empty (app/page.tsx:208). But its condition and its "discount"/"surcharge" wording use the current `totalPaid` and subtotal (app/page.tsx:90-93, 256). Only `calculateSplit` and `resetAll` rewrite the rows on screen (app/page.tsx:86, 52). Below the `md` breakpoint the input panel is hidden while a result is shown. Above it the panel is only dimmed and stays usable (app/page.tsx:136). So editing a price or the paid total after a calculation leaves the rows stale while the badge follows the new values. The model keeps this. `Session.BadgeShown` and `Session.BadgeReadsDiscount` are the page's conditions. `CalculateSplit` promises that right after a calculation with a non-zero subtotal the badge's wording agrees with the rows. A calculation with a zero subtotal returns early and keeps the old rows, and those can disagree with the badge.

The two scenarios show both failures:
- `StaleBadgeScenario`: 33000 is paid and split, then the total is changed to 27000. The page then shows a "discount" badge beside rows that add up to 33000, more than the 30000 subtotal.
- `ZeroSubtotalStaleBadgeScenario`: a single row priced -100 is split. Its price is then set to 0 and 50 is entered as paid, and the split is asked for again. The rows paying -100 stay, and the badge reads "surcharge".

## Model

| member | source | states |
|---|---|---|
| `ItemList.Blank` | app/page.tsx:39 | a new row carries the given id, an empty name and price 0 |
| `ItemList.DefaultItems` | app/page.tsx:13-16 | the initial and reset list is exactly two rows with ids 1 and 2, blank names and zero prices; its ids are unique |
| `ItemList.RemoveById` | app/page.tsx:42-44 | the filtered list is never longer than the input |
| `ItemList.RemoveByIdMembers` | app/page.tsx:43 | a row is kept if and only if it was in the list and its id differs from the removed id |
| `ItemList.RemoveByIdAppend` | app/page.tsx:43 | filtering distributes over concatenation, so the kept rows stay in their original relative order |
| `ItemList.RemoveByIdAbsent` | app/page.tsx:43 | removing an id no row carries leaves the list unchanged |
| `ItemList.RemoveByIdUnique` | app/page.tsx:42-44 | with unique ids, removing row k's id yields exactly the list without row k |
| `ItemList.RemoveByIdUniqueHead` | app/page.tsx:43 | with unique ids, removing the first row's id yields the rest of the list |
| `ItemList.RemoveByIdKeepsUnique` | app/page.tsx:43 | removal never introduces duplicate ids |
| `ItemList.UniqueTail` | app/page.tsx:43 | the tail of a unique-id list is unique and does not reuse the head's id |
| `ItemList.ConsUnique` | app/page.tsx:43 | putting a row with an unused id in front keeps ids unique |
| `ItemList.Apply` | app/page.tsx:58 | `{ ...item, [field]: value }` changes only the named field; the id and the other field are copied |
| `ItemList.UpdateById` | app/page.tsx:55-61 | same length; every row with the id gets the edit, every other row is untouched; the id sequence is unchanged |
| `ItemList.AppendKeepsUnique` | app/page.tsx:38-40 | appending a row keeps ids unique if and only if they were unique and the new id is unused |
| `Calculator.Subtotal` | app/page.tsx:72 | the left fold of the prices; a one-row bill's subtotal is that row's price (its other properties are the `Subtotal*` lemmas) |
| `Calculator.SubtotalOfZeroPrices` | app/page.tsx:72-74 | a bill whose rows all cost 0, such as the default rows, has subtotal 0, so the handler returns early |
| `Calculator.EffectiveTotal` | app/page.tsx:252 | the "Total Bayar" amount is the paid total or the subtotal; it is the subtotal exactly when no positive total was entered or the two agree; it is positive when either is |
| `Calculator.Row` | app/page.tsx:79-83 | the `map` callback for one item: it copies the id, shows the display name, keeps the price as original price, scales it by the multiplier, and its percentage times the subtotal is 100 times the price |
| `Calculator.Multiplier` | app/page.tsx:76 | with a positive paid total the multiplier scales the subtotal to that total; otherwise it is 1 |
| `Calculator.DisplayName` | app/page.tsx:80 | an empty name becomes "Item", a non-empty name is kept, and the result is never empty |
| `Calculator.Rows` | app/page.tsx:78-84 | one result row per item, same length and order, row i computed from item i |
| `Calculator.Split` | app/page.tsx:71-87 | no result if and only if the subtotal is 0; otherwise as many rows as items, row i carrying item i's id, display name and price as original price |
| `Calculator.Abs` | app/page.tsx:92 | `Math.abs` is non-negative and equals the argument or its negation |
| `Calculator.Diff` | app/page.tsx:91 | subtotal plus difference is the paid total |
| `Calculator.DiffPercentage` | app/page.tsx:92 | non-negative; 0 when the subtotal is not positive; otherwise it times the subtotal is 100 times the absolute difference |
| `Calculator.IsDiscount` | app/page.tsx:93 | a discount if and only if the paid total is below the subtotal |
| `Calculator.ShowBadge` | app/page.tsx:256 | the badge condition at this line holds if and only if a positive total was entered and it differs from the subtotal by more than 1 (the badge also sits inside the result panel; see `Session.BadgeShown`) |
| `Calculator.SubtotalAppend` | app/page.tsx:72 | the subtotal of a concatenation is the sum of the subtotals |
| `Calculator.SubtotalAddBlank` | app/page.tsx:39 | adding a blank row does not change the subtotal |
| `Calculator.SubtotalRename` | app/page.tsx:55-61 | renaming rows does not change the subtotal |
| `Calculator.PriceAtMostSubtotal` | app/page.tsx:72 | with no negative price the subtotal is non-negative and bounds every price |
| `Calculator.TotalFinalScaled` | app/page.tsx:82 | rows paying price times m sum to m times the subtotal |
| `Calculator.TotalPercentageScaled` | app/page.tsx:83 | rows whose percentage is price over s times 100 sum to the subtotal over s times 100 |
| `Calculator.MultiplierScalesSubtotal` | app/page.tsx:76 | multiplier times subtotal is the effective total: the paid total if positive, else the subtotal |
| `Calculator.SplitSumsToEffectiveTotal` | app/page.tsx:76-84 | the final prices sum exactly to the paid total when it is positive, and to the subtotal otherwise |
| `Calculator.SplitIdentityWithoutTotal` | app/page.tsx:76-82 | with no positive paid total every row's final price equals its original price |
| `Calculator.SplitPercentagesSumTo100` | app/page.tsx:83 | whenever a result is produced its percentages sum to exactly 100 |
| `Calculator.SplitBounds` | app/page.tsx:82-83 | with no negative price every percentage lies in [0, 100] and every final price is non-negative |
| `Calculator.SplitFinalIsShareOfTotal` | app/page.tsx:82-83 | each row pays its percentage of the effective total |
| `Calculator.SplitProportional` | app/page.tsx:76-82 | each row's final price times the subtotal equals its price times the effective total, so rows pay in proportion to their prices |
| `Calculator.BadgeAgreesWithSplit` | app/page.tsx:256-258 | for the split freshly computed from the current items and total: when the badge condition holds, it reads "discount" if and only if those rows together pay less than the subtotal |
| `Calculator.CancelSubtotal` | app/page.tsx:83 | a sum whose product with a non-zero subtotal is 100 times that subtotal is 100 |
| `Calculator.DiffPercentageIsMultiplierDeviation` | app/page.tsx:92 | with a paid total and a positive subtotal, the badge percentage is the multiplier's distance from 1, times 100 |
| `Calculator.NoTotalHidesBadge` | app/page.tsx:93 | with no total entered and a positive subtotal the discount flag is set but the badge is hidden |
| `Calculator.DisplayNameIdempotent` | app/page.tsx:229 | applying the "Item" placeholder again when rendering changes nothing |
| `BillSession.Session.BadgeShown` | app/page.tsx:208-256 | the badge is on screen if and only if a result is shown (the panel guard at line 208) and a positive total differs from the current subtotal by more than 1 (line 256) |
| `BillSession.Session.BadgeReadsDiscount` | app/page.tsx:257-258 | the badge's wording reads "discount" if and only if the current paid total is below the current subtotal |
| `BillSession.Session.constructor` | app/page.tsx:13-23 | initial state: two blank rows, total 0, no result, dark theme; the invariant holds |
| `BillSession.Session.ToggleTheme` | app/page.tsx:34-36 | flips the theme flag and changes no other field |
| `BillSession.Session.AddItem` | app/page.tsx:38-40 | appends a blank row with the given id; ids stay unique if and only if the id was unused; subtotal, total, result and theme unchanged |
| `BillSession.Session.RemoveItem` | app/page.tsx:42-44 | the list becomes the filtered list (the rows with a different id); unique ids stay unique; the other fields are unchanged |
| `BillSession.Session.UpdateItem` | app/page.tsx:55-61 | the list becomes the edited list; ids are unchanged; a rename keeps the subtotal; the other fields are unchanged |
| `BillSession.Session.SetTotalPaid` | app/page.tsx:194 | stores the paid total and changes nothing else |
| `BillSession.Session.ResetAll` | app/page.tsx:46-53 | two blank rows with ids 1 and 2, total 0, empty result; the theme is kept |
| `BillSession.Session.CalculateSplit` | app/page.tsx:71-87 | the new result is `NextResult` of the inputs and the old result: with a zero subtotal the previous result is kept; otherwise it is `Split`'s, summing to the effective total with percentages summing to 100; when the subtotal is non-zero, right after the call a shown badge reads "discount" if and only if the shown rows pay less than the subtotal (with a zero subtotal the kept rows can disagree with it); items, total and theme unchanged; the invariant is kept |
| `BillSession.NextResult` | app/page.tsx:71-87 | the result after `calculateSplit`: the previous one when the subtotal is 0, otherwise `Split`'s rows, one per item, summing to the effective total with percentages summing to 100; it keeps the invariant "empty or summing to 100" |
| `BillSession.CalculateIdempotent` | app/page.tsx:71-87 | calculating twice with unchanged inputs shows the same result as calculating once; since `CalculateSplit` sets the result to `NextResult`, this is about two calls of the handler |
| `BillSession.ResetShowsNoDiscount` | app/page.tsx:91-93 | in the initial and reset state (subtotal 0, no total) the discount flag is false and no badge shows |
| `BillSession.CalculateAfterResetIsNoOp` | app/page.tsx:46-53 | after a reset the subtotal is 0, so a calculation has nothing to split |
| `BillSession.SessionScenario` | app/page.tsx:13-87 | from the initial state: naming and pricing the two rows, paying 33000 and calculating shows rows paying 33000 in total; after a reset, calculating again leaves the result empty |
| `BillSession.StaleBadgeScenario` | app/page.tsx:86-258 | paying 33000 for a 30000 bill, calculating, then changing the total to 27000: the badge shows and reads "discount" while the rows still on screen pay 33000 |
| `BillSession.ZeroSubtotalStaleBadgeScenario` | app/page.tsx:74-258 | split a single row priced -100, set its price to 0, pay 50 and calculate again: the early return keeps the rows paying -100 while the badge shows and reads "surcharge" against a subtotal of 0 |
| `Scenarios.CoffeeAndTeaSubtotal` | app/page.tsx:72 | 20000 plus 10000 gives a subtotal of 30000 |
| `Scenarios.CoffeeAndTeaRows` | app/page.tsx:78-84 | the two-row bill splits into exactly two rows, one per item, in order |
| `Scenarios.NoTotalScenario` | app/page.tsx:76-84 | with no total: final prices 20000 and 10000, percentages 200/3 and 100/3, no badge |
| `Scenarios.SurchargeScenario` | app/page.tsx:76-93 | 33000 paid: multiplier 1.1, final prices 22000 and 11000, a 10% surcharge badge |
| `Scenarios.DiscountScenario` | app/page.tsx:76-93 | 27000 paid: multiplier 0.9, final prices 18000 and 9000, a 10% discount badge |
| `Scenarios.WithinOneUnitScenario` | app/page.tsx:256 | a difference of half a unit shows no badge |
| `Scenarios.ZeroBillScenario` | app/page.tsx:74 | a single zero-priced row produces no result |

## Left out

- Rendering: all JSX and CSS class choices, including how the input panel is hidden below the `md` breakpoint and only dimmed above it while a result is shown (app/page.tsx:95-283, 136). These are presentation only. The model's handlers can be called in any state, as the panel allows on wide screens.
- The theme effect on `document.documentElement` (app/page.tsx:26-32). This is DOM output; `ToggleTheme` only flips the flag.
- Currency formatting with `Intl.NumberFormat` and display rounding with `toFixed` (app/page.tsx:63-69, 231, 258). These are a foreign library and presentation; they do not change the computed values.
- Text-to-number coercion, `parseFloat(...) || 0` (app/page.tsx:159, 194), and the `item.price || 0` guard. Prices and the total reach the model as already-parsed reals, where the guard is the identity. JavaScript `NaN` is not modelled.
- Floating point: all arithmetic is on exact reals, so rounding error in "the final prices sum to the total" is not modelled. With negative prices the early-return test `subtotal === 0` (app/page.tsx:74) can also come out differently. For prices 0.1, 0.2 and -0.3 the page's double sum is about 5.55e-17, not 0, so the page splits with huge percentages. The model's subtotal is exactly 0, so `Split` returns `None`.
- `Date.now()` as the id of a new row (app/page.tsx:39) is a clock read. `AddItem` takes the id as a parameter. Freshness is not required; `AddItem`'s contract says when ids stay unique.
- `UpdateItem`: the page's `(field, value)` pair is modelled as the datatype `Edit` (`SetName` or `SetPrice`). JavaScript would accept a mismatched pair such as field "name" with a number value, but the page's own callers never pass one.
- app/layout.tsx (metadata, font and the HTML shell) is not part of this model: it holds no logic.
