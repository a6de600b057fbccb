# Checkout cart engine

This project models the cart state engine of the ShoppingMart checkout screen, the `Checkout` component in `src/Checkout.js`:

- the **load mapping** turns each fetched store item into a cart row with `orderedQuantity` 0 and `total` 0;
- the **quantity reducer** `handleQuantity(type, id)` maps over the product list:
  - every row whose `id` matches is handled; "increase" clamps the quantity to `min(availableCount, q + 1)`, "decrease" to `max(0, q - 1)`, and the row's `total` is recomputed as `price * q`;
  - any other `type` logs an error and leaves the row as it is;
- the **derived amounts** follow from the rows:
  - the subtotal is the sum of the row totals;
  - GST is 18/100 of the subtotal, but only when the subtotal is strictly above 1000;
  - the payable total is the subtotal plus GST;
- the **Add and Remove buttons** are disabled when `orderedQuantity >= availableCount` and when `orderedQuantity <= 0`.

The project has three modules:

- `CartRows` (`cart_rows.dfy`) holds the row datatypes, the load mapping, the reducer as pure functions over `seq<Row>`, the button predicates, and the lemmas about them. The lemmas cover clamping, no-op cases, framing, the row invariant under any sequence of clicks, and agreement between the buttons and the reducer.
- `Totals` (`totals.dfy`) holds the subtotal (a left fold, as `reduce` does), the GST threshold rule and the payable total. Its lemmas show how one click moves the subtotal.
- `CheckoutComponent` (`checkout.dfy`) holds the `Checkout` class, whose `productList` field is replaced wholesale by `GetData` and `HandleQuantity`, as `setproductList` does. A ghost `Valid()` ties the list to the loaded catalog and to the row invariant. Three client methods (`TwoAddsCrossTheThreshold`, `StockCapsTheQuantity`, `NoOpClicks`) replay example sessions: two Add clicks taking a 600-priced item past the GST threshold, Add clicks stopped by the stock, and clicks that change nothing.

These modelling choices are made:

- **Prices and amounts.** Prices, totals and GST are exact `real`s, so `18/100 * subtotal` has no rounding.
- **Stock.** `availableCount` is a `nat`.
- **Ordered quantity.** `orderedQuantity` is an `int`, so `Math.min`/`Math.max` are modelled as written even for a row that breaks the invariant. The invariant itself is then proved.
- **Required fields.** All four catalog fields are required.
- **The `type` argument.** It stays a string compared with `"increase"` and `"decrease"`, as the `switch` does.

Two details of the code are easy to miss:

- **Duplicate ids.** The reducer updates *every* row carrying the id, not only the first (`AllMatchingRowsAdjusted`).
- **Error logging.** The "Invalid type" error is logged inside the `map` callback. It is therefore logged once per matching row, and not at all when no row carries the id. `Checkout.HandleQuantity` returns that count.

## Model

| member | source | states |
|---|---|---|
| CartRows.Load | src/Checkout.js:99 | each item gives one row, in order, with the item's fields kept, `orderedQuantity` 0 and `total` 0 |
| CartRows.LoadRoundTrip | src/Checkout.js:99 | projecting the loaded rows back to catalog fields gives exactly the fetched list, and every loaded row satisfies the row invariant |
| CartRows.AdjustRow | src/Checkout.js:109-128 | adjusting a matched row never changes its id, name, price or stock; an unknown type returns it unchanged; a known type leaves `total == price * orderedQuantity`; the row invariant is preserved |
| CartRows.HandleQuantity | src/Checkout.js:105-134 | the new list has the same length and the same catalog fields in the same order; rows with another id are returned as they were; the invariant of all rows is preserved |
| CartRows.AllMatchingRowsAdjusted | src/Checkout.js:107-128 | every row carrying the id gets the clamped quantity and the recomputed total, including duplicates |
| CartRows.UnknownKindIsNoOp | src/Checkout.js:120-122 | an unrecognised type leaves the whole list equal to the old one |
| CartRows.UnknownIdIsNoOp | src/Checkout.js:129-131 | an id that no row carries leaves the whole list equal to the old one |
| CartRows.IncreaseClamps | src/Checkout.js:111-116 | "increase" never passes `availableCount`; it adds one below the ceiling and lands on the ceiling otherwise; within the invariant it never lowers the quantity |
| CartRows.DecreaseClamps | src/Checkout.js:117-119 | "decrease" never goes below 0; it subtracts one above zero and lands on 0 otherwise; within the invariant it never raises the quantity |
| CartRows.IncreaseAtCeilingIsNoOp | src/Checkout.js:111-116 | at `orderedQuantity == availableCount`, "increase" and a repeated "increase" leave the row unchanged |
| CartRows.DecreaseAtFloorIsNoOp | src/Checkout.js:117-119 | at `orderedQuantity == 0`, "decrease" and a repeated "decrease" leave the row unchanged |
| CartRows.IncreaseAddsPriceToTotal | src/Checkout.js:111-128 | below the ceiling one "increase" adds exactly `price` to the row total |
| CartRows.DecreaseRemovesPriceFromTotal | src/Checkout.js:117-128 | above zero one "decrease" takes exactly `price` off the row total |
| CartRows.IncreaseWithAddDisabledIsNoOp | src/Checkout.js:105-134 | an Add click on an id whose rows are all consistent with Add disabled leaves the whole list equal to the old one, so repeating it changes nothing |
| CartRows.DecreaseWithRemoveDisabledIsNoOp | src/Checkout.js:105-134 | a Remove click on an id whose rows are all consistent with Remove disabled leaves the whole list equal to the old one, so repeating it changes nothing |
| CartRows.AddDisabled | src/Checkout.js:40 | Add is disabled when `orderedQuantity >= availableCount`; within the invariant that is exactly when the quantity sits at the stock ceiling |
| CartRows.RemoveDisabled | src/Checkout.js:48 | Remove is disabled when `orderedQuantity <= 0`; within the invariant that is exactly when the quantity is 0 |
| CartRows.AddDisabledIffIncreaseIsNoOp | src/Checkout.js:40 | within the invariant, Add is disabled exactly when "increase" would leave the row unchanged |
| CartRows.RemoveDisabledIffDecreaseIsNoOp | src/Checkout.js:48 | within the invariant, Remove is disabled exactly when "decrease" would leave the row unchanged |
| CartRows.ReplayPreservesInvariant | src/Checkout.js:105-134 | any sequence of clicks keeps the list length, the catalog fields and the row invariant |
| CartRows.LoadedCartStaysConsistent | src/Checkout.js:98-133 | from a freshly loaded list, after any sequence of clicks, every row has `0 <= orderedQuantity <= availableCount` and `total == price * orderedQuantity`, and the catalog fields are still those loaded |
| CartRows.RepeatedIncrease | src/Checkout.js:111-116 | `n` Add clicks take a row from `q` to `min(availableCount, q + n)` |
| CartRows.RepeatedDecrease | src/Checkout.js:117-119 | `n` Remove clicks take a row from `q` to `max(0, q - n)` |
| CartRows.CountId | src/Checkout.js:107-121 | the number of "Invalid type" errors logged for an id is its multiplicity among the row ids |
| CartRows.CountIdZero | src/Checkout.js:107-121 | nothing is logged for an unknown type exactly when no row carries the id |
| Totals.Gst | src/Checkout.js:140-142 | GST is nonzero exactly when the subtotal is strictly above 1000; it is then `18/100 * subtotal`, which exceeds 180 |
| Totals.GrandTotal | src/Checkout.js:188 | the payable amount is never below the subtotal; it equals the subtotal up to 1000 and `118/100 * subtotal` above |
| Totals.GstAtThreshold | src/Checkout.js:141 | a subtotal of exactly 1000, or of 0, carries no GST; 1000.01 carries 180.0018 |
| Totals.GrandTotalMonotone | src/Checkout.js:188 | a larger subtotal never gives a smaller payable amount, despite the jump at the threshold |
| Totals.Subtotal | src/Checkout.js:137 | the sum of the row totals, folded from the first row: it is non-negative when every row total is, and 0 when every row total is 0 |
| Totals.SubtotalCongruent | src/Checkout.js:137 | lists with equal row totals have equal subtotals |
| Totals.SubtotalUpdate | src/Checkout.js:137 | changing one row's total changes the subtotal by exactly that difference |
| Totals.LoadedCartIsFree | src/Checkout.js:136-142 | a freshly loaded cart has subtotal, GST and payable amount 0 |
| Totals.LineTotalNonNegative | src/Checkout.js:127 | a consistent row with a non-negative price has a non-negative line total |
| Totals.SubtotalNonNegative | src/Checkout.js:137 | with non-negative prices and consistent rows, the subtotal is never negative |
| Totals.AdjustMovesSubtotalByLineChange | src/Checkout.js:105-138 | when one row carries the id, a click moves the subtotal by exactly the change in that row's total |
| Totals.IncreaseAddsOnePrice | src/Checkout.js:111-137 | below the ceiling, an Add click on a unique id raises the subtotal by exactly that row's price |
| Totals.DecreaseRemovesOnePrice | src/Checkout.js:117-137 | above zero, a Remove click on a unique id lowers the subtotal by exactly that row's price |
| CheckoutComponent.Checkout.constructor | src/Checkout.js:88 | the component starts with an empty product list, which satisfies the invariant |
| CheckoutComponent.Checkout.GetData | src/Checkout.js:95-103 | on a successful fetch the list becomes the loaded rows, and the invariant holds |
| CheckoutComponent.Checkout.HandleQuantity | src/Checkout.js:105-134 | the list is replaced by the reducer's result, the invariant and catalog are kept, and the count of logged errors is one per matching row for an unknown type and 0 otherwise |
| CheckoutComponent.Checkout.Amounts | src/Checkout.js:136-142 | the amounts read from the list are its subtotal, its GST (nonzero exactly above 1000) and their sum |

## Left out

- **Fetch.** The asynchronous fetch `getStoreItems` and the `useEffect` that triggers it are left out. They are I/O to a module that is not part of this model, so `GetData` takes the fetched list as a parameter.
- **Loading flag.** The `isLoading` flag and the falsy-result branch of `getData` are left out. They are spinner plumbing; on a falsy result the list is simply never set.
- **Markup.** The header, footer, table and card markup and the theme breakpoints are presentation only.
- **Display defaults.** The display defaults (`name ? name : "------"` and the like) and the `toFixed(2)` formatting are rendering concerns.
- **Missing fields.** A catalog item lacking `price` or `availableCount` is left out. In the source the arithmetic would give `NaN`; the model requires every field.
- **Extra fields.** Any fields an item has beyond `id`, `name`, `availableCount` and `price` are left out. The spread keeps them, but nothing reads them.
- **Floating point.** JavaScript floating-point rounding of `price * q` and `18/100 * total` is left out; the model uses exact reals.
- **Error log.** The `console.error` output itself is left out; only the number of logged errors is modelled.
- **`useMemo` caching.** It is left out; the amounts are recomputed from the list on every read.
- **Subtotal-change lemmas.** `Totals.AdjustMovesSubtotalByLineChange`, `Totals.IncreaseAddsOnePrice` and `Totals.DecreaseRemovesOnePrice` assume that one row carries the id. With duplicate ids every matching row changes (`CartRows.AllMatchingRowsAdjusted`), and only the general facts about the subtotal apply.
