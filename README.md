# Product catalogue: paging, the add-product form, and the catalogue queries

A small shop catalogue has a browser front end and an HTTP API over one
`products` table. This project models the logic behind both:

- **Browser: the catalogue page.** The page keeps the current page number
  and the product list last received from the server. It renders ten rows
  per page, draws the pager and moves between pages. Applying or resetting
  the filters sends it back to page 1 (`catalog.dfy`).
- **Browser: the add-product form.** The form trims and parses its inputs.
  It then runs four checks in a fixed order and either stops at the first
  failure or builds the request body (`add_product.dfy`). To do that it
  needs `String.prototype.trim`, `parseInt` with no radix, `parseFloat`,
  and the capitalisation of category names (`js_text.dfy`,
  `js_number.dfy`).
- **Server: the product query.** The query filters by category and price
  range, orders the rows by one of four keys (or by id), and cuts out an
  offset/limit window (`crud.dfy`).
- **Server: the category list.** This is the list of distinct categories
  (`crud.dfy`).
- **Server: the statistics snapshot.** It holds totals, average price,
  per-category aggregates built by a loop over the categories, and a
  four-bucket price histogram (`stats.dfy`).

A table row is a `Models.Product` value, and the table is a sequence of
rows. Prices and stock values are exact reals. Timestamps are integers.

The browser keeps its page number when a reload replaces the list, and
nothing brings the page back into range at the reload. Only applying or
resetting the filters sets it to 1, and `changePage(-1)` cannot step back
from a page past the last one. So after a reload that shrinks the list, the
current page can stay past the last page.
`Catalog.ShrinkingReloadStrandsThePage` walks through one such case: the
reload leaves page 3 of 1, page 3 shows the "not found" banner, and "Prev"
is enabled but does not move.

## Model

| member | source | states |
|---|---|---|
| Catalog.TotalPages | frontend/static/script.js:187 | `Math.ceil(n / 10)` is the fewest pages that hold `n` rows: `t*10 >= n`, `(t-1)*10 < n` when `t > 0`, and `t == 0` exactly when `n == 0` |
| Catalog.JsSlice | frontend/static/script.js:129 | `Array.prototype.slice` never returns more rows than the list or than `end - start`, and is the plain slice when `0 <= start <= end <= n` |
| Catalog.PageRows | frontend/static/script.js:127-129 | a page never shows more than 10 rows |
| Catalog.PageRowsWindow | frontend/static/script.js:127-129 | the slice for page `p` is rows `(p-1)*10` up to `min(p*10, n)`; it has at most 10 rows; it is empty exactly when `p` exceeds the page count |
| Catalog.FirstPagesArePrefix | frontend/static/script.js:127-129 | pages 1..k laid end to end are the first `min(10k, n)` rows of the list |
| Catalog.AllPagesShowTheList | frontend/static/script.js:123-129 | turning through all pages shows every row exactly once, in list order |
| Catalog.CatalogPage.constructor | frontend/static/script.js:28-31 | the page starts at page 1 with an empty list |
| Catalog.CatalogPage.LoadProducts | frontend/static/script.js:62-120 | a successful response replaces the list wholesale, a failed one leaves it; the page number is untouched either way |
| Catalog.CatalogPage.RenderProducts | frontend/static/script.js:123-142 | the view is the "not found" banner exactly when the current page is past the last page; otherwise it is 1 to 10 rows, exactly the current page's window of the list |
| Catalog.CatalogPage.UpdatePagination | frontend/static/script.js:180-193 | the total is the page count; page 0 is shown exactly when there are no pages, otherwise the current page; "Prev" is disabled exactly on page 1 (where `changePage(-1)` cannot move); "Next" is disabled exactly when `changePage(1)` would not move |
| Catalog.CatalogPage.ChangePage | frontend/static/script.js:196-211 | moves by `delta` exactly when the target is a page of the list (and then lands within `1..pages`), and otherwise leaves the page as it is |
| Catalog.CatalogPage.ApplyFilters | frontend/static/script.js:214-219 | back to page 1 |
| Catalog.CatalogPage.ResetFilters | frontend/static/script.js:222-237 | all four filter inputs cleared and back to page 1 |
| Catalog.ShrinkingReloadStrandsThePage | frontend/static/script.js:187-201 | after stepping to page 3 of 30 rows, a reload that returns 5 rows (lines 90-91 replace the list and keep the page) leaves the "not found" banner, a pager reading "3 of 1" with "Prev" enabled and "Next" disabled, and a `changePage(-1)` that does not move |
| JsText.Trim | frontend/static/script.js:311-312 | `trim()` never lengthens a string, never leaves it starting or ending with a space character, and returns a string that has no such padding unchanged |
| JsText.TrimStart | frontend/static/script.js:313-315 | the leading part `parseInt` and `parseFloat` skip is all space, and what remains is a suffix of the input that does not start with a space character |
| JsText.LeadingSpaces | frontend/static/script.js:311-312 | the length of the leading space run: all of it is space, and the next character is not |
| JsText.TrailingSpaces | frontend/static/script.js:311-312 | the length of the trailing space run: all of it is space, and the character before it is not |
| JsText.TrimIsInfix | frontend/static/script.js:311-312 | `trim()` returns an infix of its input, and only space characters are cut off on either side |
| JsText.TrimUnpadded | frontend/static/script.js:311-312 | a trimmed string neither starts nor ends with a space character |
| JsText.TrimOfPadded | frontend/static/script.js:311-312 | an unpadded string surrounded by any spaces trims back to itself |
| JsText.TrimIdempotent | frontend/static/script.js:311-312 | trimming twice equals trimming once |
| JsText.TrimEmptyIffAllSpace | frontend/static/script.js:311-323 | a name trims to the empty string exactly when it consists only of space characters |
| JsText.UpperChar | frontend/static/script.js:52 | `a`-`z` become `A`-`Z` (32 code points lower), every other ASCII character stays as it is; `µ` becomes U+039C, U+00E0-U+00FE other than U+00F7 move 32 code points lower, `ÿ` becomes U+0178; Cyrillic U+0430-U+044F move 32 lower and U+0450-U+045F 80 lower, into U+0400-U+042F |
| JsText.Capitalize | frontend/static/script.js:52 | the result has the input's length, an upper-cased first character, and the rest unchanged |
| JsText.CapitalizeOnlyFirst | frontend/static/script.js:52 | only the first character changes, and capitalising is idempotent |
| JsText.CategoryLabel | frontend/static/script.js:162-164 | the badge text is never empty: "Не указана" for a missing category, otherwise the category with its first letter upper-cased |
| JsNumber.DigitRun | frontend/static/script.js:313-315 | the longest run of digits at the start of a string: all of them are digits, and the next character is not |
| JsNumber.ParseInt | frontend/static/script.js:315 | after leading space and an optional sign, a string that does not start with a digit is NaN; a negative result needs a minus sign |
| JsNumber.ParseIntReadsIntString | frontend/static/script.js:315 | `parseInt` reads back the decimal notation of every integer followed by any text that does not start with a digit, nor with `x` or `X` when the integer is 0 (`0x…` is read as hexadecimal) |
| JsNumber.ParseIntHexPrefix | frontend/static/script.js:315 | with no radix, `"0x1A"` reads as 26 |
| JsNumber.ParseIntStopsAtNonDigit | frontend/static/script.js:315 | `"12abc"` reads as 12 |
| JsNumber.ParseIntOfText | frontend/static/script.js:315 | `"abc"` is NaN |
| JsNumber.ParseFloat | frontend/static/script.js:313 | after leading space and an optional sign, a string that starts with none of a digit, `.` or `I` is NaN; a negative result (finite or `-Infinity`) needs a minus sign |
| JsNumber.ParseFloatReadsDecimal | frontend/static/script.js:313 | digits, a point and digits read as the integer part plus the fraction digits divided by ten to their number |
| JsNumber.ParseFloatReadsExponent | frontend/static/script.js:313 | the decimal notation of `m`, `e` and the decimal notation of `k` read as `m` times ten to the `k` |
| JsNumber.ParseFloatReadsIntString | frontend/static/script.js:313 | `parseFloat` reads back the decimal notation of every integer |
| JsNumber.ParseFloatFraction | frontend/static/script.js:313 | `"12.5kg"` reads as 12.5 |
| JsNumber.ParseFloatLonePoint | frontend/static/script.js:313 | `"."` is NaN |
| JsNumber.ParseFloatExponent | frontend/static/script.js:313 | `"2e3"` reads as 2000 |
| AddProduct.QuantityOf | frontend/static/script.js:315 | `parseInt(...) \|\| 0` is 0 whenever the input, after leading space and a sign, does not start with a digit; it is negative only when the input carries a minus sign |
| AddProduct.QuantityReadsIntString | frontend/static/script.js:315 | the quantity field reads back every integer written in decimal followed by any text that does not start with a digit, nor with `x` or `X` when the integer is 0 |
| AddProduct.Validate | frontend/static/script.js:310-342 | the name is rejected exactly when it trims to nothing; an accepted product has a non-empty name, a trimmed name and description, an acceptable price, a chosen category and a non-negative quantity |
| AddProduct.ValidateFirstFailure | frontend/static/script.js:319-341 | the checks run in the order name, price, category, quantity. Each rejection happens exactly when its check fails and all earlier checks pass. A product is built exactly when all four pass. |
| AddProduct.AcceptedProduct | frontend/static/script.js:310-351 | an accepted product carries the trimmed non-empty name, the trimmed description, the parsed positive price, the chosen category and a non-negative quantity |
| AddProduct.UnparsedQuantityIsZero | frontend/static/script.js:315-341 | a quantity that is not a number becomes 0 and is accepted |
| Crud.Matches | backend/app/crud.py:16-21 | with no category (or an empty one) and no price bounds, every row passes |
| Crud.SortOrderOf | backend/app/crud.py:24-33 | rows go by id exactly when `sort_by` is none of the four keys, and by name exactly when it is `"name"` |
| Crud.Filter | backend/app/crud.py:16-21 | every row kept passes the filters, and each matching row is kept as often as it occurs in the table |
| Crud.StrLeTotal | backend/app/crud.py:28-29 | the name order compares every pair of names |
| Crud.StrLeTransitive | backend/app/crud.py:28-29 | the name order is transitive |
| Crud.PrecedesTotal | backend/app/crud.py:24-33 | each sort order compares every pair of rows |
| Crud.PrecedesTransitive | backend/app/crud.py:24-33 | each sort order is transitive |
| Crud.Insert | backend/app/crud.py:24-33 | inserting into an ordered list keeps it ordered and adds exactly the one row |
| Crud.Sort | backend/app/crud.py:24-33 | the result is ordered and is a permutation of the input |
| Crud.SortedIsOrdered | backend/app/crud.py:24-33 | order between neighbours gives order between every pair |
| Crud.Window | backend/app/crud.py:35 | `OFFSET`/`LIMIT` return only rows of the list, never more than the list holds, and at most `limit` rows when the limit is not negative |
| Crud.WindowNegatives | backend/app/crud.py:35 | a negative offset acts as offset 0, and a negative limit returns everything from the offset on |
| Crud.GetProducts | backend/app/crud.py:10-35 | the result never has more rows than the table, has at most `limit` rows when the limit is not negative, and every row in it passes each filter that was given (an empty category filters nothing) |
| Crud.OrderedRowsAreTheMatches | backend/app/crud.py:14-33 | before the window is cut, the ordered rows are exactly the table's matching rows, with multiplicity |
| Crud.GetProductsWindow | backend/app/crud.py:35 | the result is rows `skip` up to `skip + limit` of the ordered matches, cut at their end; at most `limit` rows |
| Crud.WindowBounds | backend/app/crud.py:35 | `OFFSET`/`LIMIT` select the slice from `min(skip, n)` to `min(skip + limit, n)` |
| Crud.GetProductsComplete | backend/app/crud.py:10-35 | with no offset and a limit at least the table's size, every matching row is returned as often as it occurs |
| Crud.WindowOrdered | backend/app/crud.py:35 | any window of an ordered list is ordered |
| Crud.GetProductsOrdered | backend/app/crud.py:24-35 | the rows come by price ascending or descending, by name, newest first, or by id for any other `sort_by` |
| Crud.GetCategories | backend/app/crud.py:46-48 | no category is listed twice, and a category is listed exactly when some row has it |
| Stats.TotalValue | backend/app/crud.py:55-56 | the stock value (sum of price times quantity) of an empty table is 0, and it is never negative when no price or quantity is |
| Stats.CategoryStatsOf | backend/app/crud.py:66-91 | a category's count is the number of its rows, at most the table's size; it is 0 exactly when no row has the category, and then every aggregate is 0 |
| Stats.NoRowsInCategory | backend/app/crud.py:67-69 | a category selects no rows exactly when no row has it |
| Stats.InCategory | backend/app/crud.py:67-83 | the rows a category filter selects: only rows of that category, and all of them with multiplicity |
| Stats.BucketOf | backend/app/crud.py:94-107 | a price falls in the first bucket exactly when it is at most 1000, the second exactly when it is above 1000 and at most 5000, the third exactly when above 5000 and at most 10000, the fourth exactly when above 10000 |
| Stats.PriceRangesOf | backend/app/crud.py:94-107 | no bucket counts more rows than the table holds, and an empty table gives four zeros |
| Stats.CountPriced | backend/app/crud.py:94-107 | a bucket never counts more rows than the table has |
| Stats.PriceRangesPartition | backend/app/crud.py:94-107 | the four buckets partition the table: their counts add up to the number of rows |
| Stats.PriceRangesSnoc | backend/app/crud.py:94-107 | one more row raises exactly the count of the bucket its price falls in |
| Stats.SamplePricesOnePerBucket | backend/app/crud.py:94-107 | prices 500, 1500, 7000 and 20000 fall one in each bucket |
| Stats.TotalValueAppend | backend/app/crud.py:55-56 | the stock value of two tables together is the sum of their values |
| Stats.SumsOverDistinct | backend/app/crud.py:62-85 | summing counts and values over distinct categories equals counting and valuing their combined rows |
| Stats.InCategoriesAll | backend/app/crud.py:62-85 | selecting by a set that holds every row's category selects the whole table |
| Stats.CategoriesAddUp | backend/app/crud.py:62-91 | the per-category counts add up to the number of rows, and the per-category stock values add up to the total stock value |
| Stats.CategoryKeys | backend/app/crud.py:46-62 | the distinct categories are exactly the categories present, so their number is the number of categories |
| Stats.DistinctSize | backend/app/crud.py:116 | a list without repetitions has as many elements as its set |
| Stats.TallyCategories | backend/app/crud.py:63-91 | both dictionaries get one key per category listed. The two counts agree, and each entry holds that category's count, stock value, average price and quantity. |
| Stats.GetStatistics | backend/app/crud.py:51-117 | it returns the row count, total stock value and average price (0 when empty), both dictionaries keyed by exactly the categories present, the entries of `TallyCategories`, the histogram and the category total. The histogram and the category counts each add up to the row count, and the category values add up to the total value. An empty table gives all zeros. |

## Left out

- DOM work is not modelled: element look-ups, `innerHTML`, display toggling, focus, scrolling, notifications and console logging. The model assumes every element the code looks up exists. The early `return` when one is missing is not modelled.
- Network calls are not modelled. `fetch`, URL building (`limit=1000` and the query string), response status handling and the JSON body are outside the model. `LoadProducts` takes the response as an `Option`, with `None` for a failed request.
- Timers, Chart.js charts, the statistics page's rendering, `createTestData`, `clearForm` and `loadCategories`' option building are not modelled; only their capitalisation of category names is shared with `JsText.Capitalize`.
- Cell formatting is not modelled: `toLocaleString`, date formatting, and the fallbacks `'Без названия'`, `'-'` and `0` in the row cells. `JsText.CategoryLabel` covers the category badge only.
- Floating point is not modelled: prices and values are exact reals, and `round(..., 2)` in the statistics is left out.
- JsNumber.ParseFloat: the decimal literal is read exactly, with no rounding to the nearest double, no underflow to 0 for tiny literals and no overflow to `Infinity` for huge ones. This changes a verdict of `AddProduct.Validate`: a price such as `1e-400` is 0 in the browser and rejected as not positive, but the model reads it as a positive real and accepts it.
- JsNumber.ParseInt: results are unbounded integers, without the precision loss of 64-bit floats above 2^53.
- JsText.UpperChar: maps exactly `a`-`z`, `µ` (U+00B5 to U+039C), U+00E0-U+00FE except U+00F7, U+00FF (to U+0178) and U+0430-U+045F; every other character is returned unchanged, although `toUpperCase` maps many more (Greek, Latin Extended, Armenian and others). A character whose upper case is longer (such as `ß` → `SS`) is left unchanged too. Strings are sequences of code points, not UTF-16 code units.
- The database is not modelled: `backend/app/database.py` is not part of this model. Offset and limit follow SQLite: a negative offset counts as 0 and a negative limit means no limit. Names compare by code point.
- Crud.GetCategories: `DISTINCT` without `ORDER BY` leaves the order of the category list to the database. The model lists categories in order of first appearance, and no contract relies on that order.
- Crud.GetProductsOrdered: the order of rows that tie on the sort key is left to the database. The model fixes one order by a stable insertion sort, and its contracts claim only the ordering and the permutation.
- `created_at` is taken as always set, since the server fills it in. `quantity` is taken as never null.
- `get_product` and `create_product` are single-row look-up and insert. They have no logic beyond the database, and only the form's side of product creation is modelled.
- The endpoints in `backend/app/main.py` are not part of this model: request validation (`ge=0`, the `sort_by` pattern), error responses and serialisation are outside it.
