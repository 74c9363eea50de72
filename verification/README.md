# Storefront cart and catalog logic in Dafny

This project models the logic core of a small fashion storefront written in
browser JavaScript. It covers five parts:

- the shopping-cart engine;
- the persisted cart that page load reads back;
- the catalog transforms behind the product grid and the category pages;
- the newsletter e-mail check;
- the quick-view quantity stepper.

Everything is pure functions over immutable values. The DOM, `fetch` and
`localStorage` are replaced by values passed in and returned.

Modules:

- `Options`: `Option<T>`.
- `Seqs`: the sequence operations the JavaScript uses, with their meaning.
  - `filter` is `Filter`. It keeps exactly the elements the predicate accepts, in order, with their multiplicities.
  - `findIndex` is `FindIndex`. The cart's `find` calls are modelled through the index `Cart.FirstMatch` returns.
  - A keep-the-first-occurrence filter is `DedupBy`.
  - `map` is `Map`.
  - `Flatten` reads the category sections one after another.
- `JsValues`: the JavaScript value rules the logic relies on.
  - Identifiers are `Undefined | Null | Str | Num`, and strict equality is equality of these values.
  - Truthiness.
  - `String(id)`.
  - The `\s` whitespace class, `trim()` and `startsWith`.
- `Cart`: `addToCart`, `removeFromCart` (including its retry with string-coerced ids), `increaseQuantity`, `decreaseQuantity`, `cleanupCart`, and the badge count.
- `CartStore`: the page-load sanitiser of the `eleganceCart` slot, and the reset of a corrupt slot.
- `CartSession`: sequences of cart actions, including "Clear Cart", and the invariants they keep.
- `CartReload`: the cart carried from one page view to the next. A cart the engine saved reloads with its invariant intact. A slot that already holds duplicate (id, size) pairs loads with them, since the loader does not de-duplicate.
- `Catalog`:
  - de-duplication of the product list by id;
  - the distinct category list in first-appearance order;
  - the per-category groups;
  - the three-product previews.
- `Newsletter`: `validateEmail` as a characterisation proved equal to the language of its regular expression, plus the trim applied before it.
- `QuickView`: the "−" and "+" buttons of the quick-view modal.

The matching rule is asymmetric, and the model keeps it exactly:

- With a truthy size, a line matches only on both id and size.
- With a falsy size, a line matches on id alone, whatever its size.

Two consequences are proved as concrete scenarios:

- `CartSession.SizelessRemovalTakesAllSizes`: the trash button of a sizeless line, or its "−" button when the line holds one item, removes the sized lines of the same product too.
- `CartSession.PanelOnNumericLine`: the cart panel always passes string ids, so "+" and "−" do nothing on a line whose id is stored as a number. The trash button still removes that line through the string-coerced retry.

Three behaviours of the code are easy to misread. The model follows the code in each:

- **Entries whose image stays unrepaired.** The comment at script.js:11 speaks of cleaning up invalid items. One might therefore expect an entry whose image cannot be repaired to be dropped. The code keeps every entry whose `id` and `image` were truthy before the repair (script.js:14-24). The repaired image can therefore be `null`. Consequences:
  - The sanitiser is idempotent only when every rendered element found carries a `data-image` (`CartStore.SanitizeIdempotent`).
  - `CartStore.SanitizeNotIdempotentWithoutImages` exhibits an entry that survives the first load and is dropped by the second.
- **When remove retries.** The comment at script.js:554 ("if nothing was removed and there should have been") might suggest a retry for the sized case only. The code retries with string-coerced ids whenever the first pass removed nothing, with or without a size (script.js:555-561).
- **What decrease removes.** Decreasing a one-item line does not remove just that line. It calls `removeFromCart(id, size)` (script.js:582), and with a falsy size that removes every line of the id.

## Model

| member | source | states |
|---|---|---|
| Cart.FirstMatch | script.js:185-187 | `findIndex` with the asymmetric predicate: -1 exactly when no line matches, otherwise the first matching line |
| Cart.Add | script.js:177-202 | invalid requests (falsy id, empty name, NaN price) leave the cart unchanged; otherwise the first matching line gains `quantity` and nothing else changes, or, when no line matches, the new line is appended after the unchanged old lines |
| Cart.AddItemCount | script.js:222 | a valid add raises the badge total by exactly the quantity added, whether it merged or appended |
| Cart.AddPreservesUniqueKeys | script.js:185-201 | adding never creates a second line with an existing (id, size) pair |
| Cart.Remove | script.js:538-570 | a falsy id changes nothing; otherwise exactly the lines not matching (id, size) survive, in order and with their multiplicities; when nothing matched strictly, exactly the lines that do not match after string coercion (same coerced id, and the same size when one is given) survive instead; with no loose match the cart is unchanged |
| Cart.MatchesIsLoose | script.js:555-560 | a strictly matching line also matches after string coercion, so the retry only widens the match |
| Cart.RemoveUndoesAdd | script.js:548-551 | removing the (id, size) of a valid add that appended a new line restores the original cart |
| Cart.Increase | script.js:589-599 | the first matching line gains one item and every other line is unchanged; with no match the cart is unchanged |
| Cart.IncreaseItemCount | script.js:594-597 | with a matching line the badge total rises by one |
| Cart.Decrease | script.js:572-587 | with no match the cart is unchanged; a first match holding more than one loses one item with everything else unchanged; a first match holding one or fewer goes through remove, so exactly the non-matching lines survive |
| Cart.DecreaseItemCount | script.js:578-579 | decreasing a line holding more than one lowers the badge total by one and keeps the number of lines |
| Cart.DecreaseUndoesIncrease | script.js:572-599 | increase followed by decrease on the same key restores the cart when the first matching line holds at least one item |
| Cart.Cleanup | script.js:531-536 | exactly the lines with a truthy id survive, in order and with their multiplicities |
| Cart.CleanupIdempotent | script.js:533 | cleaning a cleaned cart changes nothing |
| Cart.ItemCount | script.js:222 | the badge total is never negative when no quantity is, and at least the number of lines when every line holds an item |
| Cart.ItemCountPositive | script.js:225-229 | with every line holding an item, the badge is shown (total above zero) exactly when the cart is non-empty |
| CartStore.Repair | script.js:16-23 | only the image may change; it changes only for an image not starting with `http`, and then to the `data-image` of the element found for `String(id)`; with no element the line is untouched |
| CartStore.Sanitize | script.js:12-25 | never more lines than entries; every line has a truthy id; every entry with a truthy id and image yields its repaired line; every line comes from such an entry |
| CartStore.SanitizeAppend | script.js:12-25 | the sanitiser works entry by entry: it distributes over concatenation |
| CartStore.SanitizeSingle | script.js:14-24 | one entry survives exactly when it is an object with a truthy id and image, and then as its repaired line |
| CartStore.SanitizeFixedPoint | script.js:12-25 | a cart whose lines all pass the filter and need no repair is loaded back unchanged |
| CartStore.Load | script.js:7-34 | a missing or empty slot loads an empty cart and writes nothing; a corrupt slot loads an empty cart and writes `[]`; a readable slot loads exactly its sanitised entries and writes back exactly the cart it loads; every loaded line has a truthy id |
| CartStore.SaveLoadRoundTrip | script.js:7-27 | saving a cart of lines with truthy ids and `http` images and loading it gives the same cart, and rewrites the slot with it |
| CartStore.SanitizeIdempotent | script.js:12-25 | when every element found carries a non-empty `data-image`, loading what the loader wrote gives the same cart |
| CartStore.SanitizeNotIdempotentWithoutImages | script.js:19-21 | an element without `data-image` leaves a kept entry with a `null` image, which the next load drops |
| CartSession.Apply | script.js:177-689 | every cart action, whatever quantity an add asks for, keeps the (id, size) pairs of the lines distinct and every id truthy |
| CartSession.Replay | script.js:703-753 | any session of actions from such a cart, the empty one included, keeps distinct (id, size) pairs and truthy ids |
| CartSession.ApplyPreservesWellFormed | script.js:177-599 | an action whose add, if any, asks for at least one item also keeps every line holding at least one item |
| CartSession.ReplayPreservesWellFormed | script.js:703-753 | a session of such actions from a well-formed cart ends in a well-formed cart, quantities included |
| CartReload.SanitizeKeepsUniqueKeys | script.js:12-25 | stored entries that are all objects with distinct (id, size) pairs load as lines with distinct pairs, because the filter only drops entries and the repair changes only images |
| CartReload.ReloadKeepsConsistent | script.js:7-27 | a cart with distinct (id, size) pairs and truthy ids, saved as every action saves it and read back at page load, is again such a cart, whatever images the loader repairs |
| CartReload.DuplicatesSurviveLoad | script.js:12-25 | a slot holding the same kept entry twice loads two lines with the same (id, size) pair, so page load does not restore distinct keys |
| CartSession.AddOfZeroBreaksQuantities | script.js:471-479 | an add of quantity 0, which the quick-view field passes on unchecked, stores a line holding no item: keys and ids stay consistent, quantities do not |
| CartSession.ClearEmpties | script.js:687-689 | "Clear Cart" leaves no line and a zero count |
| CartSession.AddScenarios | script.js:185-201 | two sizes of a product make two lines; two sizeless adds merge into one line of the summed quantity; a sizeless add merges into an existing sized line |
| CartSession.SizelessRemovalTakesAllSizes | script.js:548-552 | removing or decreasing a one-item sizeless line also removes the sized lines of that id, while a sized removal spares the sizeless line |
| CartSession.PanelOnNumericLine | script.js:703-753 | with the string id the panel passes, "+" and "−" leave a numerically identified line unchanged, while remove deletes it through the coerced retry |
| JsValues.CoercionIsCoarser | script.js:557-559 | two identifiers with the same string form are equal unless they are of different kinds; the number 1 and the string "1" are such a pair |
| Cart.LooseMatchCrossesKinds | script.js:555-559 | a line that the string-coerced retry removes but the strict pass would not has an id of a different kind from the one requested |
| JsValues.Trim | script.js:106 | the result is a slice of the input with only whitespace outside it and no whitespace at either end |
| Catalog.DedupProducts | script.js:779-781 | the result is a subsequence of the catalog with distinct ids, the same set of ids, for each id exactly the first product carrying it, and the ids in the order of their first appearance |
| Catalog.DedupProductsIdempotent | script.js:779-781 | de-duplicating twice is de-duplicating once |
| Catalog.DedupExample | script.js:779-781 | a list whose third product repeats the first id keeps the first two products, in order |
| Catalog.Categories | main.js:7 | each category once; a category is listed exactly when some product has it; categories appear in order of their first product |
| Catalog.Group | main.js:27 | exactly the products of the category, in catalog order, with their multiplicities |
| Catalog.GroupsFor | main.js:23-27 | one group per listed category, in the order of the list |
| Catalog.Groups | main.js:23-27 | one section per distinct category, in category order, each that category's group; read one after another the sections are a permutation of the catalog |
| Catalog.EachProductInOneGroup | main.js:23-27 | every product appears in the section of its own category and in no other |
| Catalog.GroupingExample | main.js:7-27 | categories X, Y, X give the list X then Y, with sections [first, third] and [second] |
| Catalog.Preview | main.js:73 | at most three products, a prefix of the group, the whole group when it has three or fewer |
| Catalog.GroupsAreNonEmpty | main.js:69-72 | every listed category has at least one product in its group |
| Catalog.Previews | main.js:69-73 | one preview per category, each the first min(3, size) products of its group, and never empty |
| Newsletter.ValidateEmail | script.js:170-173 | the validator accepts exactly the language of `^[^\s@]+@[^\s@]+\.[^\s@]+$`, defined independently over positions |
| Newsletter.Subscribes | script.js:106-108 | the button subscribes exactly when the trimmed input matches the pattern |
| Newsletter.ValidateEmailShape | script.js:171 | accepted exactly when the address has no whitespace, exactly one `@` with a non-empty part before it, and a dot strictly inside the part after it |
| QuickView.StepDown | script.js:449-454 | above 1 the field drops by one, otherwise it is unchanged; it never goes below 1 from 1 or more |
| QuickView.StepUp | script.js:457-461 | "+" always raises the field; the exact step of one is stated by `QuickView.StepDownUndoesStepUp` |
| QuickView.StepDownUndoesStepUp | script.js:449-461 | "−" undoes "+" from any value of at least 1 |
| QuickView.StepUpUndoesStepDown | script.js:449-461 | "+" undoes "−" whenever "−" changed the field |
| QuickView.PressesStayPositive | script.js:449-461 | from the reset value 1 or more, no series of presses brings the field below 1 |

## Left out

- CartStore.Save: `JSON.stringify` followed by `JSON.parse` is modelled as the identity on line items, each becoming an object entry. This is exact for lines with finite prices. `Cart.Add` rejects a `NaN` price, and the model's `real` amounts cannot be `Infinity`. A line with either price would come back with a `null` price, which the model does not represent.
- Rendering, notifications, modals, scrolling and styling: DOM effects with no logic beyond what is modelled.
- `fetch` of `products.json`: the product list is an input to every catalog function.
- The `localStorage` writes after each cart action are not modelled separately. Each cart function returns the sequence that is then written, and `CartStore.Load` returns what page load writes.
- Price arithmetic (line totals, the cart total, `toFixed`) and the parsing of prices from text. A price is a number or `NaN`, and only `isNaN` is consulted.
- Quantities are integers. `parseInt` of a non-numeric field (giving `NaN`) is not modelled, and neither is string concatenation on a stored quantity that is text.
- Numeric ids are integers. Fractional and `NaN` ids, and their string forms, are not modelled.
- JsValues.ToJsString: numbers are unbounded integers, whereas JavaScript numbers are doubles. Ids and quantities are exact there only up to 2^53, and `String(n)` switches to exponent form from 1e21 (`"1e+21"`), while the model prints every digit. The coerced retry of remove and the image lookup, both built on `String(id)`, are therefore modelled only for numbers below those bounds. The same holds for the sums of `Cart.ItemCount`.
- Non-string stored images: `startsWith` would throw, and the whole cart would reset. Only string images and missing or `null` images are modelled.
- Ids that make the `[data-id="..."]` selector syntactically invalid are not modelled. `querySelector` would throw, and the cart would reset. The lookup is a total function from `String(id)` to an element.
- The `catch` branch of `removeFromCart` that falls back to `cleanupCart`: the modelled cart never holds `null` entries, so its filter cannot throw. `Cart.Cleanup` itself is modelled.
- The quick-view add button's guard that a size is selected (script.js:474-477) is a caller check. Its call to `addToCart` is `Cart.Add` with a truthy size.
- The `productData` tables, `attachCartListeners`, the lower-cased category anchors and `cart.js` are not part of this model.
- The confirm dialog before "Clear Cart": the action is modelled once confirmed.
- CartSession.ApplyPreservesWellFormed: `addToCart` never checks the quantity (script.js:179), and the quick-view button passes `parseInt` of its field unchecked (script.js:471, 479). So the at-least-one-item part holds only for adds that ask for one or more. The field stays at 1 or more while it changes through its buttons (`QuickView.PressesStayPositive`). A typed 0 breaks the invariant (`CartSession.AddOfZeroBreaksQuantities`). The key and id invariants hold for every action (`CartSession.Apply`).
- CartSession.ReplayPreservesWellFormed: the quantity part likewise needs every add of the session to ask for at least one item. `CartSession.Replay` states the key and id invariants for every session.
- QuickView.StepUp: its contract states only that the field grows. The exact step of one is stated through `QuickView.StepDownUndoesStepUp`.
