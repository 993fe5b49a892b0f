# Lojinha inventory screens in Dafny

A model of the decision logic in the "lojinha" inventory dashboard, a React
front end over a REST API. The model covers:

- the products table: its stock badge, its red quantity, the column sort and
  the header-click sort state;
- the low-stock page: the low, critical and warning lists, the three counters
  and the per-product cards with their progress percentage;
- the dashboard: product count, stock value, low-stock count and the quick
  summary;
- the dashboard's low-stock widget;
- the products page: search, caption and confirmed delete;
- the movements page: history search and the register form's submit;
- the mapping of API product records into the front end's `Product`.

Every screen applies its own copy of the "low stock" rule, and the model keeps
each copy as that screen writes it. `ScreenAgreement` proves where the copies
agree and gives concrete products where they part.

Modules:

- `JsValues`: the JavaScript semantics the screens depend on.
  - `undefined`/`null`.
  - Division by a possibly-zero minimum, giving infinities and NaN.
  - `<=` against NaN.
  - `String(n)` and `Number(s)`.
  - `toLowerCase` and `includes`.
- `Seqs`: `Array.prototype.filter` and a sort contract for `Array.prototype.sort`.
- `Inventory`: the record types of `types/inventory.ts`.
- `ProductsTable`, `LowStock`, `Dashboard`, `LowStockAlert`, `Products`,
  `Movements` and `UseProducts`: one module per source file.
- `ScreenAgreement`: the cross-screen lemmas.

Conventions:

- Money is integer cents.
- Quantities and minimums are unbounded integers. They may be negative,
  because the screens test `quantity <= 0` and `quantity === 0`.
- `localeCompare` is a parameter, required to be a total preorder.
- `toLowerCase` applies a character-lowering parameter `lower` to each
  character.
- Side effects that matter become state on a page class:
  - the delete mutation is recorded in `ProductsPage.deleteRequests`;
  - the create-movement call is recorded in `MovementsPage.createRequests`.
- The user's answer to `confirm(...)` and the outcome of the awaited call are
  parameters.

What the code does and does not do, as modelled:

- No screen shares a stock classifier. Each compares `quantity` with
  `minStock` in its own way, and a zero minimum with zero quantity counts as
  low on every screen. `LowStockCountsAgree`,
  `TableStatusDiffersForNegativeMinimum`, `NegativeQuantityNotOutOfStock` and
  `CardFlagDisagreesAtZeroMinimum` pin down where the copies agree and part.
- "Movimentações Hoje" on the dashboard is the constant 0; no movement total
  is computed anywhere.
- The product dialogs only convert their fields with `Number(...)`; no unit
  cost is derived from a batch cost.

## Model

| member | source | states |
|---|---|---|
| JsValues.Percentage | lojinha-control-main/src/pages/LowStock.tsx:104-105 | `quantity / minStock * 100` is finite exactly when the minimum is non-zero, and then its value times the minimum is 100 times the quantity. A zero minimum gives +Infinity, -Infinity or NaN by the sign of the quantity. |
| JsValues.AtMost | lojinha-control-main/src/pages/LowStock.tsx:107 | JavaScript's `x <= bound`: for a finite number the real comparison, false for NaN and +Infinity, true for -Infinity. |
| JsValues.ToLowerCase | lojinha-control-main/src/pages/Products.tsx:21-22 | Lowercasing keeps the length and lowers each character in place. |
| JsValues.Includes | lojinha-control-main/src/pages/Products.tsx:21-22 | `s.includes(sub)` holds iff `sub` occurs in `s` at some position. |
| JsValues.IntToString | lojinha-control-main/src/hooks/useProducts.ts:8 | `String(i)` is non-empty, starts with '-' exactly for a negative integer, and is otherwise made of decimal digits. |
| JsValues.ToNumber | lojinha-control-main/src/pages/Movements.tsx:66-68 | `Number(s)` is 0 for the empty field, never infinite, a non-negative number for a run of digits, and NaN when a non-digit follows the first character. |
| JsValues.ToNumberOfIntToString | lojinha-control-main/src/pages/Products.tsx:30 | `Number(String(i))` is `i` for every integer, so the number sent to the API is the API's own id. |
| JsValues.IntToStringInjective | lojinha-control-main/src/hooks/useProducts.ts:8 | Distinct integer ids have distinct string forms. |
| Seqs.Filter | lojinha-control-main/src/pages/LowStock.tsx:12-14 | The filtered array is an order-preserving subsequence of the input. It is no longer than the input and holds exactly the elements that pass the test. |
| Seqs.FilterCounts | lojinha-control-main/src/pages/LowStock.tsx:12-14 | Each passing element keeps its multiplicity; every failing one has none. |
| Seqs.SortWith | lojinha-control-main/src/components/products/ProductsTable.tsx:44 | Sorting a copy with a consistent comparator gives a permutation of the input in which no pair is out of order. |
| Seqs.InsertKeepsTiedOrder | lojinha-control-main/src/components/products/ProductsTable.tsx:44 | Inserting one element keeps the elements tied with any given one in their order, and puts the inserted element ahead of its ties. |
| Seqs.SortWithIsStable | lojinha-control-main/src/components/products/ProductsTable.tsx:44 | The sort is stable: for any element, the elements tied with it appear in the result in their input order. |
| ProductsTable.GetStockStatus | lojinha-control-main/src/components/products/ProductsTable.tsx:77-87 | "Sem estoque"/destructive iff quantity <= 0. "Baixo"/warning iff 0 < quantity <= minStock. "Normal"/success otherwise. |
| ProductsTable.QuantityHighlighted | lojinha-control-main/src/components/products/ProductsTable.tsx:173-174 | A quantity drawn red never sits beside a "Normal" badge, whatever the minimum. |
| ProductsTable.HighlightMatchesStatus | lojinha-control-main/src/components/products/ProductsTable.tsx:173-174 | With a non-negative minimum, the quantity is drawn red exactly when the badge is not "Normal". |
| ProductsTable.HighlightDiffersForNegativeMinimum | lojinha-control-main/src/components/products/ProductsTable.tsx:173-174 | With minimum -1 and quantity 0 the badge says "Sem estoque" but the quantity is not red. |
| ProductsTable.Compare | lojinha-control-main/src/components/products/ProductsTable.tsx:44-59 | The comparator answers "not after" exactly when the pair is in order for the chosen column and direction. Names use `localeCompare`, or its mirror for descending order; quantity and price use numeric order. |
| ProductsTable.ComparatorIsConsistent | lojinha-control-main/src/components/products/ProductsTable.tsx:44-59 | If `localeCompare` is a total preorder, the comparator is total and transitive for every column and direction. |
| ProductsTable.SortedProducts | lojinha-control-main/src/components/products/ProductsTable.tsx:44-59 | `sortedProducts` is a permutation of `products`, and every earlier row is in column order with every later one. |
| ProductsTable.SortedProductsStable | lojinha-control-main/src/components/products/ProductsTable.tsx:44-59 | Rows whose sorted column compares equal keep the order they had in `products`. |
| ProductsTable.NextSort | lojinha-control-main/src/components/products/ProductsTable.tsx:61-68 | Clicking a header always sorts by that column. It flips the direction on the current column and starts ascending on a new one. |
| ProductsTable.NextSortTwiceRestores | lojinha-control-main/src/components/products/ProductsTable.tsx:61-68 | Two clicks on the current column restore the original sort. |
| ProductsTable.SortState.constructor | lojinha-control-main/src/components/products/ProductsTable.tsx:39-42 | The table starts sorted by name, ascending. |
| ProductsTable.SortState.HandleSort | lojinha-control-main/src/components/products/ProductsTable.tsx:61-68 | The new (sortBy, sortOrder) is the `NextSort` transition of the old one. |
| ProductsTable.SortState.Rows | lojinha-control-main/src/components/products/ProductsTable.tsx:44-59 | The rendered rows are `sortedProducts` for the current state: a permutation of the products in the current column order, stable by `SortedProductsStable`. |
| LowStock.LowStockProducts | lojinha-control-main/src/pages/LowStock.tsx:12-14 | The low list is an order-preserving subsequence holding exactly the products with quantity <= minStock. |
| LowStock.CriticalProducts | lojinha-control-main/src/pages/LowStock.tsx:16-18 | The critical list is a subsequence of the low list holding exactly the low products with quantity <= minStock / 2. |
| LowStock.WarningProducts | lojinha-control-main/src/pages/LowStock.tsx:20-22 | The warning list is a subsequence of the low list holding exactly the low products with quantity > minStock / 2. |
| LowStock.ListsKeepMultiplicity | lojinha-control-main/src/pages/LowStock.tsx:12-22 | Each list holds each qualifying product as often as the input does, and nothing else. |
| LowStock.CriticalAndWarningPartitionLow | lojinha-control-main/src/pages/LowStock.tsx:55-83 | The critical and warning lists are disjoint. Their counts add up to the low count, and together they are the low list as a multiset. |
| LowStock.PercentageAtMostFifty | lojinha-control-main/src/pages/LowStock.tsx:104-107 | For a positive minimum, `percentage <= 50` iff 2·quantity <= minStock. For a negative minimum the inequality flips. |
| LowStock.CardFor | lojinha-control-main/src/pages/LowStock.tsx:103-107 | A card's percentage is finite iff the minimum is non-zero. Its critical flag matches the critical list for a positive minimum. For a zero minimum it is set iff quantity < 0; for a negative minimum the comparison is reversed. |
| LowStock.CardFlagMatchesCriticalList | lojinha-control-main/src/pages/LowStock.tsx:16-18 | For a low product with a positive minimum, the card is drawn critical iff the product is in the critical list. |
| LowStock.CardFlagDisagreesAtZeroMinimum | lojinha-control-main/src/pages/LowStock.tsx:103-107 | A product with quantity 0 and minimum 0 is counted as critical, but its card (`0/0`) is not drawn critical. |
| LowStock.LowStockScreen | lojinha-control-main/src/pages/LowStock.tsx:24-107 | "Carregando..." iff loading. Otherwise "Crítico" is the length of the critical list, "Atenção" that of the warning list, and they add up to "Total", the number of low products. "Tudo em ordem!" appears iff no product is low. Otherwise card k is `CardFor` of the k-th low product: that product, its percentage and its `percentage <= 50` flag. |
| LowStockAlert.AlertProducts | lojinha-control-main/src/components/dashboard/LowStockAlert.tsx:10-12 | The widget's list is an order-preserving subsequence of exactly the products with quantity <= minStock. |
| LowStockAlert.LowStockAlertView | lojinha-control-main/src/components/dashboard/LowStockAlert.tsx:14-43 | The "adequate" message appears iff no product is low. Otherwise the badge is the low count (at least 1), and the items are the first min(4, count) low products in order, each with its percentage. |
| LowStockAlert.PercentageWithinBounds | lojinha-control-main/src/components/dashboard/LowStockAlert.tsx:42-43 | For 0 <= quantity <= minStock with a positive minimum, the percentage is finite and between 0 and 100. |
| LowStockAlert.ShownPercentageBounds | lojinha-control-main/src/components/dashboard/LowStockAlert.tsx:41-43 | A shown item with a positive minimum and non-negative quantity has a progress value in [0, 100]. One with a zero minimum has no finite value. |
| Dashboard.TotalStockValue | lojinha-control-main/src/pages/Dashboard.tsx:23-26 | The fold starts at 0 for no products; with `StockValueOfOne` and `StockValueAdditive` it is the sum of price × quantity. |
| Dashboard.StockValueAdditive | lojinha-control-main/src/pages/Dashboard.tsx:23-26 | The stock value of two lists laid end to end is the sum of their values. |
| Dashboard.StockValueNonNegative | lojinha-control-main/src/pages/Dashboard.tsx:23-26 | With non-negative prices and quantities the stock value is not negative. |
| Dashboard.StockValueOfOne | lojinha-control-main/src/pages/Dashboard.tsx:24 | One product contributes price × quantity. |
| Dashboard.LowStockCount | lojinha-control-main/src/pages/Dashboard.tsx:28-30 | The count is at most the number of products, and it is zero iff every product is above its minimum. |
| Dashboard.LowStockCountOfOne | lojinha-control-main/src/pages/Dashboard.tsx:28-30 | One product counts 1 iff quantity <= minStock. |
| Dashboard.LowStockCountAdditive | lojinha-control-main/src/pages/Dashboard.tsx:28-30 | Counts add over concatenation. |
| Dashboard.OutOfStockCount | lojinha-control-main/src/pages/Dashboard.tsx:100 | "Produtos sem estoque" is at most the product count, and it is zero iff no quantity is exactly 0. |
| Dashboard.OutOfStockCountOfOne | lojinha-control-main/src/pages/Dashboard.tsx:100 | One product counts 1 iff its quantity is exactly 0. |
| Dashboard.OutOfStockCountAdditive | lojinha-control-main/src/pages/Dashboard.tsx:100 | Counts add over concatenation, so the figure is the number of products with quantity exactly 0. |
| Dashboard.OutOfStockAtMostLowStock | lojinha-control-main/src/pages/Dashboard.tsx:100 | With non-negative minimums, out-of-stock <= low-stock. |
| Dashboard.DashboardScreen | lojinha-control-main/src/pages/Dashboard.tsx:21-100 | The screen shows these figures: <ul><li>"Total de Produtos" and "Produtos cadastrados" are the product count;</li><li>"Categorias ativas" is the category count;</li><li>"Movimentações Hoje" is 0;</li><li>the stock value is the fold;</li><li>"Estoque Baixo" is `LowStockCount` and "Produtos sem estoque" is `OutOfStockCount`, both bounded by the product count, the second by the first when no minimum is negative;</li><li>the embedded widget is `LowStockAlertView` of the same products: "adequate" iff the low count is 0, and otherwise its badge equals the low count.</li></ul> |
| Products.FilteredProducts | lojinha-control-main/src/pages/Products.tsx:18-25 | The list is an order-preserving subsequence holding exactly the products whose lowercased name or SKU contains the lowercased query. |
| Products.EmptyQueryKeepsAll | lojinha-control-main/src/pages/Products.tsx:18-25 | An empty search lists every product, in order. |
| Products.CategoryPlaysNoPart | lojinha-control-main/src/pages/Products.tsx:13-25 | The category select does not affect the list. |
| Products.ProductsCaption | lojinha-control-main/src/pages/Products.tsx:57-59 | "Carregando produtos..." iff loading. Otherwise the caption shows the number of filtered products, which is at most the total and equals it for an empty search. |
| Products.ProductsPage.constructor | lojinha-control-main/src/pages/Products.tsx:12-13 | The search starts empty, the category at "all", and no delete has been issued. |
| Products.ProductsPage.HandleDelete | lojinha-control-main/src/pages/Products.tsx:27-31 | A delete with `Number(product.id)` is issued iff the user confirms, and nothing else changes. |
| Products.ProductsPage.Rows | lojinha-control-main/src/pages/Products.tsx:18-25 | The rows given to the table are the search result for the current query and category: a subsequence of the products, and all of them when the search is empty. |
| Movements.FilteredMovements | lojinha-control-main/src/pages/Movements.tsx:47-49 | The list is an order-preserving subsequence holding exactly the movements that have a product with a name whose lowercased form contains the lowercased query. |
| Movements.EmptyQueryKeepsOnlyNamed | lojinha-control-main/src/pages/Movements.tsx:47-49 | With an empty search the list is exactly the movements whose product and name are present. |
| Movements.NamelessMovementNeverShown | lojinha-control-main/src/pages/Movements.tsx:47-49 | A movement with a missing or null product or name is never listed, whatever the query. |
| Movements.MovementsListing | lojinha-control-main/src/pages/Movements.tsx:194-204 | "Carregando..." iff loading. "Nenhuma movimentação registrada ainda." iff not loading and no movement matches. The rows are exactly `filteredMovements`, a subsequence of the history. |
| Movements.MovementsPage.constructor | lojinha-control-main/src/pages/Movements.tsx:30-38 | The dialog starts closed, the type is "entrada", and every text field is empty. |
| Movements.MovementsPage.SelectProduct | lojinha-control-main/src/pages/Movements.tsx:150-156 | Choosing a product stores its id text and changes nothing else. |
| Movements.MovementsPage.HandleSubmit | lojinha-control-main/src/pages/Movements.tsx:52-92 | <ul><li>The submit is rejected, with no call and no change, iff the product or quantity field is empty.</li><li>Otherwise one create call is issued with `Number(product)`, the current type, `Number(quantity)` and the reason.</li><li>On success the dialog closes and the quantity, reason and product fields are cleared.</li><li>On failure the form is unchanged.</li></ul> |
| Movements.GuardLetsNonPositiveQuantitiesThrough | lojinha-control-main/src/pages/Movements.tsx:55-70 | The non-empty fields "0" and "-5" pass the guard and reach the payload as 0 and -5. |
| UseProducts.MapApiProduct | lojinha-control-main/src/hooks/useProducts.ts:6-19 | The mapped record keeps these fields: <ul><li>its id reads back through `Number(...)` as the API id;</li><li>its category is the category's name, or "" when the category is absent or null;</li><li>name, SKU, quantity, minimum (`min_stock`), price and cost are copied.</li></ul> |
| UseProducts.MapApiProducts | lojinha-control-main/src/hooks/useProducts.ts:26 | The list keeps its length and order, each element is mapped, and records with distinct API ids get distinct product ids. |
| ScreenAgreement.LowStockCountsAgree | lojinha-control-main/src/pages/Dashboard.tsx:28-30 | The dashboard's low count, the widget's badge and the low-stock page's total count the same list. |
| ScreenAgreement.TableStatusMatchesLowList | lojinha-control-main/src/components/products/ProductsTable.tsx:77-87 | With a non-negative minimum, the table badge is not "Normal" iff the product is on the low-stock page. |
| ScreenAgreement.TableStatusDiffersForNegativeMinimum | lojinha-control-main/src/components/products/ProductsTable.tsx:78-80 | Quantity 0 with minimum -1 is "Sem estoque" in the table but absent from the low-stock page. |
| ScreenAgreement.OutOfStockImpliesTableEmpty | lojinha-control-main/src/pages/Dashboard.tsx:100 | Every product the dashboard counts as out of stock is "Sem estoque" in the table. |
| ScreenAgreement.NegativeQuantityNotOutOfStock | lojinha-control-main/src/pages/Dashboard.tsx:100 | Quantity -1 is "Sem estoque" in the table but not counted under "Produtos sem estoque". |

## Left out

- HTTP and React Query plumbing are not modelled: the requests, cache invalidation, refetching and login.
  - The decoded API response is the input.
  - Delete and create calls are recorded as request logs.
  - Whether the create call succeeds is a parameter.
- Toasts, `console.error` and all rendering are left out. The model covers only the text and flags the screens decide on.
- Floating-point behaviour of `price * quantity`, and of the `aVal - bVal` comparator, is not modelled. Money is integer cents and the arithmetic is exact.
- Currency formatting with `Intl.NumberFormat` is not modelled.
- JsValues.Percentage: the real quotient is exact, with no float rounding. The infinities and NaN are modelled because they decide the card flags.
- `new Date(...)` on `created_at`/`updated_at` is not modelled; the timestamps are kept as text.
- JsValues.ToLowerCase and ProductsTable.SortedProducts: Unicode case mapping and locale collation are not modelled. `lower` and `localeCompare` are parameters, and the latter is required to be a total preorder.
- JsValues.ToNumber covers the empty string, an optional sign and decimal digits, and NaN for anything else. Whitespace, decimals, exponents, hex and "Infinity" are not modelled. The model reads them as NaN, whereas JavaScript would give a number for a quantity typed as "1.5".
- JsValues.IntToString covers integers only. Exponent notation at 1e21 and beyond is not modelled.
- Seqs.SortWith, ProductsTable.SortedProducts and ProductsTable.SortState.Rows: insertion sort stands in for the engine's sort. The model states that the result is a permutation, in order and stable, but does not prove that these properties fix the result uniquely.
- Trivial setters that only store an input value are not modelled separately: the search box, the category select, the movement-type buttons and the text fields.
- The other screens and dialogs are presentation or thin wrappers around an API call: the product dialogs, categories, reports, settings, login and layout.
